/** Reading printed RDF lists back from the triples of a run. */
module RdfaReadBack {
  import opened Helpers

  import opened RdfaStore
  import opened RdfaSteps
  import opened RdfaLists

  /**
   `node` is a list of exactly these items, as anyone would read it: one rdf:first, one rdf:rest, and so on
   until rdf:nil.
   */
  ghost predicate ReadsBack(ts: seq<Triple>, node: string, items: seq<Value>)
    decreases |items|
  {
    if items == [] then node == NIL
    else
      && node != NIL
      && Triple(node, FIRST, items[0]) in ts
      && (forall t | t in ts && t.subject == node && t.property == FIRST :: t.obj == items[0])
      && exists next ::
          && Triple(node, REST, Resource(next)) in ts
          && (forall t | t in ts && t.subject == node && t.property == REST :: t.obj == Resource(next))
          && ReadsBack(ts, next, items[1..])
  }

  function AllCells(es: seq<Entry>): seq<Triple> {
    if es == [] then [] else Cells(es[0], 0) + AllCells(es[1..])
  }

  predicate IsCell(e: Entry, k: nat, t: Triple) {
    k < |e.items| && (t == Triple(Node(e, k), FIRST, e.items[k]) || t == Triple(Node(e, k), REST, Resource(Node(e, k + 1))))
  }

  lemma {:induction false} CellIndex(e: Entry, from: nat, t: Triple) returns (k: nat)
    requires from <= |e.items| && t in Cells(e, from)
    ensures IsCell(e, k, t)
    decreases |e.items| - from
  {
    hide Node;
    if t in Cells(e, from + 1) {
      k := CellIndex(e, from + 1, t);
    } else {
      k := from;
    }
  }

  lemma {:induction false} CellIsListed(e: Entry, from: nat, k: nat, t: Triple)
    requires from <= k && IsCell(e, k, t)
    ensures t in Cells(e, from)
    decreases k - from
  {
    hide Node;
    if from < k {
      CellIsListed(e, from + 1, k, t);
    }
  }

  lemma CellsAreCells(e: Entry, from: nat)
    requires from <= |e.items|
    ensures forall t | t in Cells(e, from) :: exists k :: IsCell(e, k, t)
    ensures forall k, t | from <= k && IsCell(e, k, t) :: t in Cells(e, from)
  {
    hide Cells, IsCell;
    forall t | t in Cells(e, from) ensures exists k :: IsCell(e, k, t) {
      var k := CellIndex(e, from, t);
    }
    forall k: nat, t | from <= k && IsCell(e, k, t) ensures t in Cells(e, from) {
      CellIsListed(e, from, k, t);
    }
  }

  lemma {:induction false} AllCellsAreCells(es: seq<Entry>)
    ensures forall t | t in AllCells(es) :: exists i, k :: 0 <= i < |es| && IsCell(es[i], k, t)
    ensures forall i, k, t | 0 <= i < |es| && IsCell(es[i], k, t) :: t in AllCells(es)
    decreases |es|
  {
    if es != [] {
      CellsAreCells(es[0], 0);
      AllCellsAreCells(es[1..]);
      forall t | t in AllCells(es) ensures exists i, k :: 0 <= i < |es| && IsCell(es[i], k, t) {
        if t in Cells(es[0], 0) {
          var k :| IsCell(es[0], k, t);
        } else {
          assert t in AllCells(es[1..]);
          var i, k :| 0 <= i < |es[1..]| && IsCell(es[1..][i], k, t);
          assert IsCell(es[i + 1], k, t);
        }
      }
      forall i, k, t | 0 <= i < |es| && IsCell(es[i], k, t) ensures t in AllCells(es) {
        if i > 0 { assert IsCell(es[1..][i - 1], k, t); }
      }
    }
  }

  /** The nodes of all the lists of a run are pairwise distinct. */
  lemma NodesAreDistinct(es: seq<Entry>, counter: nat, i: nat, k: nat, j: nat, l: nat, low: nat)
    requires InOrder(es, low, counter) && i < |es| && j < |es| && k < |es[i].items| && l < |es[j].items|
    requires Node(es[i], k) == Node(es[j], l)
    ensures i == j && k == l
  {
    BlankIsInjective(es[i].first + 1 + k, es[j].first + 1 + l);
  }

  /** Among these triples, rdf:first and rdf:rest are used for the cells of printed lists alone. */
  ghost predicate OnlyCells(ts: seq<Triple>, es: seq<Entry>) {
    forall t | t in ts && !Plain(t.property) :: t in AllCells(es)
  }

  lemma {:induction false} ListReadsBack(ts: seq<Triple>, es: seq<Entry>, counter: nat, i: nat, k: nat, low: nat)
    requires InOrder(es, low, counter) && i < |es| && k <= |es[i].items|
    requires OnlyCells(ts, es) && forall t | t in AllCells(es) :: t in ts
    ensures ReadsBack(ts, Node(es[i], k), es[i].items[k..])
    decreases |es[i].items| - k
  {
    hide InOrder, AllCells, Node;
    var e := es[i];
    assert k == |e.items| ==> Node(e, k) == NIL by { NodeShape(e, k); }
    if k < |e.items| {
      AllCellsAreCells(es);
      assert Node(e, k) != NIL by { NodeShape(e, k); }
      assert IsCell(e, k, Triple(Node(e, k), FIRST, e.items[k]));
      assert IsCell(e, k, Triple(Node(e, k), REST, Resource(Node(e, k + 1))));
      OnlyOwnCells(ts, es, counter, i, k, low);
      PropertiesDiffer();
      ListReadsBack(ts, es, counter, i, k + 1, low);
      assert e.items[k..][1..] == e.items[k + 1..];
      assert Triple(Node(e, k), REST, Resource(Node(e, k + 1))) in ts;
    }
  }

  /** On the node of an item, rdf:first and rdf:rest are used for its own cells alone. */
  lemma OnlyOwnCells(ts: seq<Triple>, es: seq<Entry>, counter: nat, i: nat, k: nat, low: nat)
    requires InOrder(es, low, counter) && i < |es| && k < |es[i].items| && OnlyCells(ts, es)
    ensures forall t | t in ts && t.subject == Node(es[i], k) && !Plain(t.property) :: IsCell(es[i], k, t)
  {
    hide InOrder, AllCells, Node;
    AllCellsAreCells(es);
    forall t | t in ts && t.subject == Node(es[i], k) && !Plain(t.property) ensures IsCell(es[i], k, t) {
      var j, l :| 0 <= j < |es| && IsCell(es[j], l, t);
      NodesAreDistinct(es, counter, i, k, j, l, low);
    }
  }

  /** From item `k` on, rdf:first and rdf:rest are used on the nodes of the list for its cells alone. */
  ghost predicate OwnCells(ts: seq<Triple>, e: Entry, k: nat) {
    forall j, t | k <= j < |e.items| && t in ts && t.subject == Node(e, j) && !Plain(t.property) :: IsCell(e, j, t)
  }

  /** A list whose cells are written reads back exactly when nothing else uses rdf:first or rdf:rest on its nodes. */
  lemma {:induction false} ListReadsBackIff(ts: seq<Triple>, e: Entry, k: nat)
    requires k <= |e.items| && forall t | t in Cells(e, 0) :: t in ts
    ensures ReadsBack(ts, Node(e, k), e.items[k..]) <==> OwnCells(ts, e, k)
    decreases |e.items| - k
  {
    hide Node, Cells;
    NodeShape(e, k);
    if k < |e.items| {
      CellsAreCells(e, 0);
      var first := Triple(Node(e, k), FIRST, e.items[k]);
      var rest := Triple(Node(e, k), REST, Resource(Node(e, k + 1)));
      assert IsCell(e, k, first) && IsCell(e, k, rest);
      PropertiesDiffer();
      ListReadsBackIff(ts, e, k + 1);
      assert e.items[k..][1..] == e.items[k + 1..];
      assert OwnCells(ts, e, k) <==>
             (OwnCells(ts, e, k + 1) && forall t | t in ts && t.subject == Node(e, k) && !Plain(t.property) :: IsCell(e, k, t));
      if ReadsBack(ts, Node(e, k), e.items[k..]) {
        var next :| Triple(Node(e, k), REST, Resource(next)) in ts
                    && (forall t | t in ts && t.subject == Node(e, k) && t.property == REST :: t.obj == Resource(next))
                    && ReadsBack(ts, next, e.items[k + 1..]);
        assert rest.obj == Resource(next);
        assert next == Node(e, k + 1);
      }
    }
  }

  lemma PropertiesDiffer()
    ensures FIRST != REST && Plain(TYPE) && Plain(USES_VOCABULARY)
  {
    assert FIRST[|RDF|] == 'f' && REST[|RDF|] == 'r' && TYPE[|RDF|] == 't';
    assert USES_VOCABULARY[18] == 'n' && RDF[18] == '1';
  }

  lemma NodeShape(e: Entry, k: nat)
    ensures k < |e.items| ==> Node(e, k) != NIL
    ensures k >= |e.items| ==> Node(e, k) == NIL
  {
    BlankIsNotNil(e.first + 1 + k);
  }

  // Where rdf:first and rdf:rest come from ------------------------------------------------------------------------

  /** No token resolves to rdf:first or rdf:rest. */
  predicate PlainTokens(sc: Scope, tokens: seq<string>) {
    forall t | t in tokens :: Plain(sc.Property(t))
  }

  predicate PlainElement(sc: Scope, a: Attributes) {
    PlainTokens(sc, Tokens(a.rel)) && PlainTokens(sc, Tokens(a.rev)) && PlainTokens(sc, Tokens(a.property))
  }

  /** No token of the document does, each in the scope of its element. */
  predicate PlainDocument(rules: Rules, t: Tree, c: Context) {
    && PlainElement(ScopeOf(rules, t.attributes, c), t.attributes)
    && forall u | u in t.children :: PlainDocument(rules, u, Inside(rules, t.attributes, c))
  }

  /** A context with the vocabulary, the prefixes and the language that the children of an element see. */
  function Inside(rules: Rules, a: Attributes, c: Context): Context {
    var sc := ScopeOf(rules, a, c);
    c.(vocabulary := sc.vocabulary, prefixes := sc.prefixes, language := sc.language)
  }

  /** What a document says of tokens depends on the scope alone. */
  lemma SameScope(rules: Rules, a: Attributes, c: Context, d: Context)
    requires c.vocabulary == d.vocabulary && c.prefixes == d.prefixes && c.language == d.language
    ensures ScopeOf(rules, a, c) == ScopeOf(rules, a, d)
    ensures var i, j := Inside(rules, a, c), Inside(rules, a, d);
            i.vocabulary == j.vocabulary && i.prefixes == j.prefixes && i.language == j.language
  {
  }

  lemma {:induction false} SamePlain(rules: Rules, t: Tree, c: Context, d: Context)
    requires c.vocabulary == d.vocabulary && c.prefixes == d.prefixes && c.language == d.language
    requires PlainDocument(rules, t, c)
    ensures PlainDocument(rules, t, d)
    decreases t
  {
    hide ScopeOf, PlainElement;
    SameScope(rules, t.attributes, c, d);
    forall u | u in t.children ensures PlainDocument(rules, u, Inside(rules, t.attributes, d)) {
      SamePlain(rules, u, Inside(rules, t.attributes, c), Inside(rules, t.attributes, d));
    }
  }

  predicate PlainSlots(st: State) {
    forall m, i | 0 <= m < |st.mappings| && 0 <= i < |st.mappings[m]| :: Plain(st.mappings[m][i].property)
  }

  predicate PlainItems(waiting: seq<Incomplete>) {
    forall w | w in waiting :: Plain(w.property)
  }

  /** The triples and slots that were added have plain properties. */
  predicate AddsPlain(st: State, r: State) {
    && (forall t | t in r.triples :: t in st.triples || Plain(t.property))
    && (PlainSlots(st) ==> PlainSlots(r))
  }

  lemma {:induction false} AddTriplesAddsPlain(sc: Scope, tokens: seq<string>, subject: string, obj: Value, st: State)
    requires PlainTokens(sc, tokens)
    ensures AddsPlain(st, AddTriples(sc, tokens, subject, obj, st))
    decreases |tokens|
  {
    if tokens != [] {
      var p := sc.Property(tokens[0]);
      AddTriplesAddsPlain(sc, tokens[1..], subject, obj, if p != "" then AddTriple(st, subject, p, obj) else st);
    }
  }

  lemma AddToListAddsPlain(st: State, m: nat, property: string, v: Value)
    requires m < |st.mappings| && Plain(property)
    ensures AddsPlain(st, AddToList(st, m, property, v)) && AddsPlain(st, ListFor(st, m, property).0)
  {
  }

  lemma {:induction false} AddToListsAddsPlain(sc: Scope, tokens: seq<string>, m: nat, v: Value, st: State)
    requires PlainTokens(sc, tokens) && m < |st.mappings|
    ensures AddsPlain(st, AddToLists(sc, tokens, m, v, st))
    decreases |tokens|
  {
    hide AddToList, PlainSlots, Plain;
    if tokens != [] {
      var p := sc.Property(tokens[0]);
      if p != "" {
        AddToListAddsPlain(st, m, p, v);
        AddToListsAddsPlain(sc, tokens[1..], m, v, AddToList(st, m, p, v));
      } else {
        AddToListsAddsPlain(sc, tokens[1..], m, v, st);
      }
    }
  }

  lemma {:induction false} AddTypesAddsPlain(sc: Scope, tokens: seq<string>, subject: string, st: State)
    ensures AddsPlain(st, AddTypes(sc, tokens, subject, st))
    decreases |tokens|
  {
    PropertiesDiffer();
    if tokens != [] {
      var t := sc.Term(tokens[0]);
      AddTypesAddsPlain(sc, tokens[1..], subject, if t != "" then AddTriple(st, subject, TYPE, Resource(t)) else st);
    }
  }

  lemma {:induction false} AwaitItemsAddsPlain(sc: Scope, tokens: seq<string>, m: nat, st: State)
    requires PlainTokens(sc, tokens) && m < |st.mappings|
    ensures var (r, waiting) := AwaitItems(sc, tokens, m, st); AddsPlain(st, r) && PlainItems(waiting)
    decreases |tokens|
  {
    hide ListFor, PlainSlots, Plain;
    if tokens != [] {
      var p := sc.Property(tokens[0]);
      if p == "" {
        AwaitItemsAddsPlain(sc, tokens[1..], m, st);
      } else {
        assert ListFor(st, m, p).0.mappings == ListFor(st, m, p).0.mappings && |ListFor(st, m, p).0.mappings| == |st.mappings| by {
          ListForKeepsSize(st, m, p);
        }
        AddToListAddsPlain(st, m, p, Resource(""));
        AwaitItemsAddsPlain(sc, tokens[1..], m, ListFor(st, m, p).0);
      }
    }
  }

  lemma ListForKeepsSize(st: State, m: nat, property: string)
    requires m < |st.mappings|
    ensures |ListFor(st, m, property).0.mappings| == |st.mappings|
  {
  }

  lemma {:induction false} AwaitTriplesArePlain(sc: Scope, tokens: seq<string>, forward: bool)
    requires PlainTokens(sc, tokens)
    ensures PlainItems(AwaitTriples(sc, tokens, forward))
    decreases |tokens|
  {
    if tokens != [] {
      AwaitTriplesArePlain(sc, tokens[1..], forward);
    }
  }

  lemma {:induction false} CompleteAddsPlain(waiting: seq<Incomplete>, outer: string, subject: string, st: State)
    requires PlainItems(waiting)
    ensures AddsPlain(st, Complete(waiting, outer, subject, st))
    decreases |waiting|
  {
    if waiting != [] {
      CompleteAddsPlain(waiting[1..], outer, subject, CompleteOne(waiting[0], outer, subject, st));
    }
  }

  lemma StepsAddPlain(sc: Scope, a: Attributes, c: Context, f: Found, m: nat, st: State)
    requires PlainElement(sc, a) && m < |st.mappings| && PlainItems(c.incomplete)
    ensures var w := Steps(sc, a, c, f, m, st); AddsPlain(st, w.st) && PlainItems(w.incomplete)
  {
    hide AddToLists, AddTriples, AwaitItems, AwaitTriples, Complete, AddTypes, PropertyValue, PlainSlots, PlainTokens;
    var w := if f.resource != "" then Awaited(Relate(sc, a, f, m, st), f.resource, []) else Await(sc, a, f, m, st);
    assert AddsPlain(st, w.st) && PlainItems(w.incomplete) && |w.st.mappings| == |st.mappings| by {
      if f.resource != "" {
        AddToListsAddsPlain(sc, Tokens(a.rel), m, Resource(f.resource), st);
        AddTriplesAddsPlain(sc, Tokens(a.rel), f.subject, Resource(f.resource), st);
        var st1 :=
          if a.inlist then AddToLists(sc, Tokens(a.rel), m, Resource(f.resource), st)
          else AddTriples(sc, Tokens(a.rel), f.subject, Resource(f.resource), st);
        AddTriplesAddsPlain(sc, Tokens(a.rev), f.resource, Resource(f.subject), st1);
      } else {
        var st1 := if f.subject != "" && (a.rel.Some? || a.rev.Some?) then NewBlank(st) else st;
        assert AddsPlain(st, st1) by { SameSlots(st, st1); }
        AwaitItemsAddsPlain(sc, Tokens(a.rel), m, st1);
        AwaitTriplesArePlain(sc, Tokens(a.rel), true);
        AwaitTriplesArePlain(sc, Tokens(a.rev), false);
      }
    }
    CompleteAddsPlain(c.incomplete, c.subject, f.subject, w.st);
    CompleteKeepsMappings(c.incomplete, c.subject, f.subject, w.st);
    var completed := if f.subject != "" && !f.skip then Complete(c.incomplete, c.subject, f.subject, w.st) else w.st;
    var types := if f.typed != "" then Tokens(a.typeof) else [];
    AddTypesAddsPlain(sc, types, f.typed, completed);
    AddTypesKeepsStore(sc, types, f.typed, completed);
    var typed := AddTypes(sc, types, f.typed, completed);
    var v := PropertyValue(sc, a, f.typed);
    AddToListsAddsPlain(sc, Tokens(a.property), m, v, typed);
    AddTriplesAddsPlain(sc, Tokens(a.property), f.subject, v, typed);
  }

  lemma SameSlots(st: State, r: State)
    requires r.mappings == st.mappings && r.triples == st.triples
    ensures AddsPlain(st, r)
  {
  }

  lemma VisitAddsPlain(rules: Rules, a: Attributes, c: Context, st: State)
    requires PlainElement(ScopeOf(rules, a, c), a) && c.listMapping < |st.mappings| && PlainItems(c.incomplete)
    ensures var v := VisitElement(rules, a, c, st); AddsPlain(st, v.st) && PlainItems(v.child.incomplete)
  {
    hide Establish, Steps, PlainElement, Plain, ScopeOf, SubjectOf, Inherited, Or;
    var sc := ScopeOf(rules, a, c);
    var f := Establish(sc, a, c, st.blankCounter);
    PropertiesDiffer();
    var st1 := RecordSubject(a, f, UseVocabulary(a, st));
    assert AddsPlain(st, st1);
    var own := OwnMapping(f, c);
    var st2 := if own then NewMapping(st1) else st1;
    assert AddsPlain(st1, st2);
    var m := if own then |st1.mappings| else c.listMapping;
    StepsAddPlain(sc, a, c, f, m, st2);
    var w := Steps(sc, a, c, f, m, st2);
    assert AddsPlain(w.st, NewMapping(w.st));
  }

  /** rdf:first and rdf:rest occur in cells alone, and no list is about to be printed for one of them. */
  ghost predicate Tidy(st: State) {
    PlainSlots(st) && OnlyCells(st.triples, AllEntries(st.printed))
  }

  lemma {:induction false} AllCellsGrow(es: seq<Entry>, more: seq<Entry>)
    ensures AllCells(es + more) == AllCells(es) + AllCells(more)
    decreases |es|
  {
    if es == [] {
      assert es + more == more;
    } else {
      assert (es + more)[1..] == es[1..] + more;
      AllCellsGrow(es[1..], more);
    }
  }

  lemma {:induction false} PrintedTriples(subject: string, es: seq<Entry>)
    requires forall i | 0 <= i < |es| :: Plain(es[i].property)
    ensures forall t | t in EntriesTriples(subject, es) && !Plain(t.property) :: t in AllCells(es)
    decreases |es|
  {
    if es != [] {
      PrintedTriples(subject, es[1..]);
    }
  }

  lemma PrintIsTidy(st: State, subject: string, m: nat)
    requires Tidy(st) && m < |st.mappings|
    ensures Tidy(Print(st, subject, m))
  {
    hide Entries, EntriesTriples, AllCells, AllEntries, Plain;
    var entries := Entries(st.lists, st.mappings[m], st.blankCounter);
    EntriesMatch(st.lists, st.mappings[m], st.blankCounter);
    PrintedTriples(subject, entries);
    AllEntriesStep(st.printed, Emission(m, subject, entries));
    AllCellsGrow(AllEntries(st.printed), entries);
  }

  lemma {:induction false} TraverseIsTidy(rules: Rules, t: Tree, c: Context, st: State, low: nat)
    requires PlainDocument(rules, t, c) && Tidy(st) && Sound(st, low) && LiveContext(st, c) && PlainItems(c.incomplete)
    ensures Tidy(Traverse(rules, t, c, st))
    decreases t, 0
  {
    hide VisitElement, Print, Keeps, PlainElement, PlainItems, LiveItems, IsPrinted, WellFormed, PlainSlots, OnlyCells, AllEntries, AllFinal;
    hide AllWritten, InOrder;
    VisitIsQuiet(rules, t.attributes, c, st);
    VisitAddsPlain(rules, t.attributes, c, st);
    var v := VisitElement(rules, t.attributes, c, st);
    QuietIsSound(st, v.st, low);
    assert Tidy(v.st) by { StillTidy(st, v.st); }
    ChildScope(rules, t.attributes, c, st);
    forall u | u in t.children ensures PlainDocument(rules, u, v.child) {
      SamePlain(rules, u, Inside(rules, t.attributes, c), v.child);
    }
    TraverseAllIsTidy(rules, t.children, v.child, v.st, low);
    var st' := TraverseAll(rules, t.children, v.child, v.st);
    if v.deferred.Some? {
      PrintIsTidy(st', v.deferred.value.subject, v.deferred.value.listMapping);
    }
  }

  lemma ChildScope(rules: Rules, a: Attributes, c: Context, st: State)
    requires c.listMapping < |st.mappings|
    ensures var d, i := VisitElement(rules, a, c, st).child, Inside(rules, a, c);
            d.vocabulary == i.vocabulary && d.prefixes == i.prefixes && d.language == i.language
  {
    hide Steps, Establish, ScopeOf;
  }

  lemma StillTidy(st: State, r: State)
    requires Tidy(st) && AddsPlain(st, r) && r.printed == st.printed
    ensures Tidy(r)
  {
  }

  lemma {:induction false} TraverseAllIsTidy(rules: Rules, ts: seq<Tree>, c: Context, st: State, low: nat)
    requires (forall t | t in ts :: PlainDocument(rules, t, c)) && Tidy(st) && Sound(st, low) && LiveContext(st, c) && c.outer.Some?
    requires PlainItems(c.incomplete)
    ensures Tidy(TraverseAll(rules, ts, c, st))
    decreases ts, 1
  {
    hide Traverse, PlainDocument, PlainItems, IsPrinted, WellFormed, Tidy, AllFinal, AllWritten, InOrder, AllEntries;
    if ts != [] {
      TraverseIsTidy(rules, ts[0], c, st, low);
      TraverseIsSound(rules, ts[0], c, st, low);
      var st' := Traverse(rules, ts[0], c, st);
      LiveAfter(st, st', c);
      TraverseAllIsTidy(rules, ts[1..], c, st', low);
    }
  }

  // Whole runs ------------------------------------------------------------------------------------------------------

  /** The state a run starts from: one empty list mapping, and whatever the parser produced before. */
  predicate Starting(st: State) {
    st.mappings == [[]] && st.lists == [] && st.printed == []
  }

  lemma StartIsSound(st: State, c: Context, low: nat)
    requires low <= st.blankCounter
    requires Starting(st) && c.outer.None? && c.listMapping == 0 && c.incomplete == []
    ensures Sound(st, low) && LiveContext(st, c)
  {
  }

  /** What printing promises for one list: its triple, its items as they are at the end of the run, its nodes. */
  ghost predicate Told(st: State, ts: seq<Triple>, e: Emission, i: nat)
    requires i < |e.entries|
  {
    && Final(st, e)
    && Triple(e.subject, e.entries[i].property, Resource(Node(e.entries[i], 0))) in st.triples
    && ReadsBack(ts, Node(e.entries[i], 0), st.lists[st.mappings[e.mapping][i].list].items)
  }

  lemma {:induction false} EntryIsListed(printed: seq<Emission>, e: Emission, i: nat) returns (j: nat)
    requires e in printed && i < |e.entries|
    ensures j < |AllEntries(printed)| && AllEntries(printed)[j] == e.entries[i]
    decreases |printed|
  {
    var n := |printed| - 1;
    if printed[n] == e {
      j := |AllEntries(printed[..n])| + i;
    } else {
      j := EntryIsListed(printed[..n], e, i);
    }
  }

  lemma CellsAreWritten(st: State)
    requires AllWritten(st)
    ensures forall t | t in AllCells(AllEntries(st.printed)) :: t in st.triples
  {
    hide AllCells, AllEntries;
    var es := AllEntries(st.printed);
    AllCellsAreCells(es);
    forall t | t in AllCells(es) ensures t in st.triples {
      var j, k :| 0 <= j < |es| && IsCell(es[j], k, t);
      var e, i := ListedEntry(st.printed, j);
      CellsAreCells(es[j], 0);
      assert t in EntryTriples(e.subject, e.entries[i]);
    }
  }

  lemma {:induction false} ListedEntry(printed: seq<Emission>, j: nat) returns (e: Emission, i: nat)
    requires j < |AllEntries(printed)|
    ensures e in printed && i < |e.entries| && AllEntries(printed)[j] == e.entries[i]
    decreases |printed|
  {
    var n := |printed| - 1;
    if j < |AllEntries(printed[..n])| {
      e, i := ListedEntry(printed[..n], j);
    } else {
      e, i := printed[n], j - |AllEntries(printed[..n])|;
    }
  }

  lemma PrintedListsReadBack(st: State, ts: seq<Triple>, e: Emission, i: nat, low: nat)
    requires Sound(st, low) && e in st.printed && i < |e.entries|
    requires OnlyCells(ts, AllEntries(st.printed)) && forall t | t in AllCells(AllEntries(st.printed)) :: t in ts
    ensures Told(st, ts, e, i)
  {
    hide WellFormed, AllEntries, ReadsBack, InOrder, OnlyCells, Cells, AllCells;
    var j := EntryIsListed(st.printed, e, i);
    ListReadsBack(ts, AllEntries(st.printed), st.blankCounter, j, 0, low);
    assert e.entries[i].items[0..] == e.entries[i].items;
    assert Triple(e.subject, e.entries[i].property, Resource(Node(e.entries[i], 0))) in EntryTriples(e.subject, e.entries[i]);
  }

  /**
   Over a whole run: elements are visited once each in document order; and for every property of every
   printed mapping, following rdf:rest through the generated list triples gives the items the list has at
   the end of the run, in order. The nodes of the lists are named after the run began, those of a later
   list after those of an earlier one, so they are all distinct and all new.
   */
  lemma EveryListReadsBack(rules: Rules, t: Tree, c: Context, st: State)
    requires Starting(st) && c.outer.None? && c.listMapping == 0 && c.incomplete == []
    ensures var r := Traverse(rules, t, c, st);
            && Elements(r.subjects) == Elements(st.subjects) + Preorder(t)
            && (forall x | x in AllCells(AllEntries(r.printed)) :: x in r.triples)
            && InOrder(AllEntries(r.printed), st.blankCounter, r.blankCounter)
            && forall e, i | e in r.printed && 0 <= i < |e.entries| :: Told(r, AllCells(AllEntries(r.printed)), e, i)
  {
    hide Sound, Keeps, Traverse, Told, OnlyCells, AllCells, AllEntries;
    var low := st.blankCounter;
    StartIsSound(st, c, low);
    TraverseIsSound(rules, t, c, st, low);
    var r := Traverse(rules, t, c, st);
    var cells := AllCells(AllEntries(r.printed));
    SoundIsWritten(r, low);
    CellsAreWritten(r);
    assert OnlyCells(cells, AllEntries(r.printed)) by { CellsOnly(AllEntries(r.printed)); }
    forall e, i | e in r.printed && 0 <= i < |e.entries| ensures Told(r, cells, e, i) {
      PrintedListsReadBack(r, cells, e, i, low);
    }
  }

  lemma CellsOnly(es: seq<Entry>)
    ensures OnlyCells(AllCells(es), es)
  {
  }

  lemma SoundIsWritten(st: State, low: nat)
    requires Sound(st, low)
    ensures AllWritten(st) && InOrder(AllEntries(st.printed), low, st.blankCounter)
  {
  }

  /**
   When no token of the document resolves to rdf:first or rdf:rest, the same holds of all the triples of the run:
   nothing else in the graph disturbs a list.
   */
  lemma EveryListReadsBackInTheGraph(rules: Rules, t: Tree, c: Context, st: State)
    requires Starting(st) && c.outer.None? && c.listMapping == 0 && c.incomplete == []
    requires PlainDocument(rules, t, c) && forall x | x in st.triples :: Plain(x.property)
    ensures var r := Traverse(rules, t, c, st);
            forall e, i | e in r.printed && 0 <= i < |e.entries| :: Told(r, r.triples, e, i)
  {
    hide Sound, Keeps, Traverse, Told, OnlyCells, AllCells, AllEntries, PlainDocument;
    var low := st.blankCounter;
    StartIsSound(st, c, low);
    TraverseIsSound(rules, t, c, st, low);
    assert Tidy(st) by { StartIsTidy(st); }
    TraverseIsTidy(rules, t, c, st, low);
    var r := Traverse(rules, t, c, st);
    SoundIsWritten(r, low);
    CellsAreWritten(r);
    forall e, i | e in r.printed && 0 <= i < |e.entries| ensures Told(r, r.triples, e, i) {
      PrintedListsReadBack(r, r.triples, e, i, low);
    }
  }

  /**
   In the graph of a run all printed lists read back exactly when every rdf:first and rdf:rest triple on a
   node of one of them is one of its cells.
   */
  lemma EveryListReadsBackIff(rules: Rules, t: Tree, c: Context, st: State)
    requires Starting(st) && c.outer.None? && c.listMapping == 0 && c.incomplete == []
    ensures var r := Traverse(rules, t, c, st);
            (forall e, i | e in r.printed && 0 <= i < |e.entries| :: Told(r, r.triples, e, i)) <==>
            (forall e, i | e in r.printed && 0 <= i < |e.entries| :: OwnCells(r.triples, e.entries[i], 0))
  {
    hide Sound, Traverse, Told, OwnCells, AllCells, AllEntries;
    EveryListReadsBack(rules, t, c, st);
    StartIsSound(st, c, st.blankCounter);
    TraverseIsSound(rules, t, c, st, st.blankCounter);
    var r := Traverse(rules, t, c, st);
    SoundIsWritten(r, st.blankCounter);
    forall e, i | e in r.printed && 0 <= i < |e.entries|
      ensures Told(r, r.triples, e, i) <==> OwnCells(r.triples, e.entries[i], 0)
    {
      assert Told(r, AllCells(AllEntries(r.printed)), e, i);
      ToldIff(r, AllCells(AllEntries(r.printed)), e, i);
    }
  }

  lemma ToldIff(st: State, cells: seq<Triple>, e: Emission, i: nat)
    requires AllWritten(st) && e in st.printed && i < |e.entries| && Told(st, cells, e, i)
    ensures Told(st, st.triples, e, i) <==> OwnCells(st.triples, e.entries[i], 0)
  {
    hide ReadsBack, OwnCells, Cells;
    var entry := e.entries[i];
    assert forall t | t in Cells(entry, 0) :: t in EntryTriples(e.subject, entry);
    ListReadsBackIff(st.triples, entry, 0);
    assert entry.items[0..] == entry.items;
  }

  lemma StartIsTidy(st: State)
    requires Starting(st) && forall x | x in st.triples :: Plain(x.property)
    ensures Tidy(st)
  {
  }
}
