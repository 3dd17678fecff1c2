/**
 Lists and the labels of blank nodes. A page may use labels like `_:1`, which the parser also generates; only a
 page that does, and that uses rdf:first or rdf:rest as well, can disturb a printed list.
 */
module RdfaLabels {
  import opened Helpers

  import opened RdfaStore
  import opened RdfaSteps
  import opened RdfaLists
  import opened RdfaReadBack

  // Labels in a document --------------------------------------------------------------------------------------------

  /** A label that the parser generates after the first `low` ones. */
  ghost predicate Generated(name: string, low: nat) {
    exists n: nat :: n > low && name == Blank(n)
  }

  /** Nothing that an element refers to resolves to such a label. */
  ghost predicate UnlabelledElement(sc: Scope, a: Attributes, low: nat) {
    && !Generated(sc.Resource(a.about), low) && !Generated(sc.Resource(a.resource), low)
    && !Generated(sc.Link(a.href), low) && !Generated(sc.Link(a.src), low) && !Generated(a.base, low)
  }

  /** Nothing that the document refers to does. */
  ghost predicate UnlabelledDocument(rules: Rules, t: Tree, c: Context, low: nat) {
    && UnlabelledElement(ScopeOf(rules, t.attributes, c), t.attributes, low)
    && forall u | u in t.children :: UnlabelledDocument(rules, u, Inside(rules, t.attributes, c), low)
  }

  lemma {:induction false} SameUnlabelled(rules: Rules, t: Tree, c: Context, d: Context, low: nat)
    requires c.vocabulary == d.vocabulary && c.prefixes == d.prefixes && c.language == d.language
    requires UnlabelledDocument(rules, t, c, low)
    ensures UnlabelledDocument(rules, t, d, low)
    decreases t
  {
    hide ScopeOf, UnlabelledElement;
    SameScope(rules, t.attributes, c, d);
    forall u | u in t.children ensures UnlabelledDocument(rules, u, Inside(rules, t.attributes, d), low) {
      SameUnlabelled(rules, u, Inside(rules, t.attributes, c), Inside(rules, t.attributes, d), low);
    }
  }

  // Names that are no nodes of lists ----------------------------------------------------------------------------------

  /** A node of a printed list. */
  ghost predicate ListNode(st: State, name: string) {
    exists i, k :: 0 <= i < |AllEntries(st.printed)| && 0 <= k < |AllEntries(st.printed)[i].items|
                   && name == Node(AllEntries(st.printed)[i], k)
  }

  /** A label that was generated was generated already, and not for a list. */
  ghost predicate Safe(st: State, low: nat, name: string) {
    && !ListNode(st, name)
    && forall n: nat | n > low && name == Blank(n) :: n <= st.blankCounter
  }

  /** Every subject is a safe name, or a node of a list in a cell of that list. */
  ghost predicate Clear(st: State, low: nat) {
    forall t | t in st.triples :: Safe(st, low, t.subject) || t in AllCells(AllEntries(st.printed))
  }

  ghost predicate SafeStays(st: State, r: State, low: nat) {
    forall name | Safe(st, low, name) :: Safe(r, low, name)
  }

  ghost predicate SafeContext(st: State, low: nat, c: Context) {
    Safe(st, low, c.subject) && Safe(st, low, c.parentObject)
  }

  lemma UngeneratedIsSafe(st: State, low: nat, name: string)
    requires !Generated(name, low) && InOrder(AllEntries(st.printed), low, st.blankCounter)
    ensures Safe(st, low, name)
  {
    hide AllEntries;
    var es := AllEntries(st.printed);
    forall i, k | 0 <= i < |es| && 0 <= k < |es[i].items| ensures name != Node(es[i], k) {
      assert es[i].first + 1 + k > low;
    }
  }

  /** A name generated for an element is no node of a list. */
  lemma NewIsSafe(st: State, r: State, low: nat, n: nat)
    requires InOrder(AllEntries(st.printed), low, st.blankCounter)
    requires r.printed == st.printed && st.blankCounter < n <= r.blankCounter
    ensures Safe(r, low, Blank(n))
  {
    hide AllEntries;
    var es := AllEntries(st.printed);
    forall i, k | 0 <= i < |es| && 0 <= k < |es[i].items| ensures Blank(n) != Node(es[i], k) {
      if Blank(n) == Node(es[i], k) {
        BlankIsInjective(n, es[i].first + 1 + k);
      }
    }
    forall m: nat | m > low && Blank(n) == Blank(m) ensures m <= r.blankCounter {
      BlankIsInjective(n, m);
    }
  }

  // What an element adds ----------------------------------------------------------------------------------------------

  /** New triples are about these names, and nothing is printed. */
  predicate AddsAbout(st: State, r: State, names: set<string>) {
    && (forall t | t in r.triples :: t in st.triples || t.subject in names)
    && r.printed == st.printed && st.blankCounter <= r.blankCounter
  }

  lemma AddsAboutMore(a: State, b: State, c: State, names: set<string>, more: set<string>, all: set<string>)
    requires AddsAbout(a, b, names) && AddsAbout(b, c, more) && names <= all && more <= all
    ensures AddsAbout(a, c, all)
  {
  }

  lemma {:induction false} TriplesAbout(sc: Scope, tokens: seq<string>, subject: string, obj: Value, st: State)
    ensures AddsAbout(st, AddTriples(sc, tokens, subject, obj, st), {subject})
    decreases |tokens|
  {
    if tokens != [] {
      var p := sc.Property(tokens[0]);
      TriplesAbout(sc, tokens[1..], subject, obj, if p != "" then AddTriple(st, subject, p, obj) else st);
    }
  }

  lemma {:induction false} ListsAboutNothing(sc: Scope, tokens: seq<string>, m: nat, v: Value, st: State)
    requires m < |st.mappings|
    ensures AddsAbout(st, AddToLists(sc, tokens, m, v, st), {})
    decreases |tokens|
  {
    if tokens != [] {
      var p := sc.Property(tokens[0]);
      ListsAboutNothing(sc, tokens[1..], m, v, if p != "" then AddToList(st, m, p, v) else st);
    }
  }

  lemma {:induction false} TypesAbout(sc: Scope, tokens: seq<string>, subject: string, st: State)
    ensures AddsAbout(st, AddTypes(sc, tokens, subject, st), {subject})
    decreases |tokens|
  {
    if tokens != [] {
      var t := sc.Term(tokens[0]);
      TypesAbout(sc, tokens[1..], subject, if t != "" then AddTriple(st, subject, TYPE, Resource(t)) else st);
    }
  }

  lemma {:induction false} ItemsAboutNothing(sc: Scope, tokens: seq<string>, m: nat, st: State)
    requires m < |st.mappings|
    ensures AddsAbout(st, AwaitItems(sc, tokens, m, st).0, {})
    decreases |tokens|
  {
    if tokens != [] {
      var p := sc.Property(tokens[0]);
      if p == "" {
        ItemsAboutNothing(sc, tokens[1..], m, st);
      } else {
        ListForKeepsSize(st, m, p);
        ItemsAboutNothing(sc, tokens[1..], m, ListFor(st, m, p).0);
      }
    }
  }

  lemma {:induction false} CompleteAbout(waiting: seq<Incomplete>, outer: string, subject: string, st: State)
    ensures AddsAbout(st, Complete(waiting, outer, subject, st), {outer, subject})
    decreases |waiting|
  {
    if waiting != [] {
      CompleteAbout(waiting[1..], outer, subject, CompleteOne(waiting[0], outer, subject, st));
    }
  }

  lemma RelateAbout(sc: Scope, a: Attributes, f: Found, m: nat, st: State)
    requires m < |st.mappings|
    ensures AddsAbout(st, Relate(sc, a, f, m, st), {f.subject, f.resource})
  {
    hide AddToLists, AddTriples;
    ListsAboutNothing(sc, Tokens(a.rel), m, Resource(f.resource), st);
    TriplesAbout(sc, Tokens(a.rel), f.subject, Resource(f.resource), st);
    var st1 :=
      if a.inlist then AddToLists(sc, Tokens(a.rel), m, Resource(f.resource), st)
      else AddTriples(sc, Tokens(a.rel), f.subject, Resource(f.resource), st);
    TriplesAbout(sc, Tokens(a.rev), f.resource, Resource(f.subject), st1);
  }

  lemma AwaitAbout(sc: Scope, a: Attributes, f: Found, m: nat, st: State)
    requires m < |st.mappings|
    ensures var w := Await(sc, a, f, m, st);
            AddsAbout(st, w.st, {}) && (w.resource == "" || (w.resource == Blank(st.blankCounter + 1) && w.st.blankCounter > st.blankCounter))
  {
    hide AwaitItems, AwaitTriples;
    var st1 := if f.subject != "" && (a.rel.Some? || a.rev.Some?) then NewBlank(st) else st;
    ItemsAboutNothing(sc, Tokens(a.rel), m, st1);
  }

  /** The names that an element's triples are about, but for its base. */
  function Names(f: Found, c: Context): set<string> {
    {f.subject, f.resource, f.typed, c.subject}
  }

  lemma StepsAbout(sc: Scope, a: Attributes, c: Context, f: Found, m: nat, st: State)
    requires m < |st.mappings|
    ensures var w := Steps(sc, a, c, f, m, st);
            && AddsAbout(st, w.st, Names(f, c))
            && (w.resource == "" || w.resource == f.resource
                || (w.resource == Blank(st.blankCounter + 1) && w.st.blankCounter > st.blankCounter))
  {
    hide AddToLists, AddTriples, AwaitItems, AwaitTriples, Complete, AddTypes, PropertyValue, Relate, Await, AddsAbout;
    RelateAbout(sc, a, f, m, st);
    AwaitAbout(sc, a, f, m, st);
    var w := if f.resource != "" then Awaited(Relate(sc, a, f, m, st), f.resource, []) else Await(sc, a, f, m, st);
    WithMore(st, w.st, if f.resource != "" then {f.subject, f.resource} else {}, Names(f, c));
    CompleteAbout(c.incomplete, c.subject, f.subject, w.st);
    CompleteKeepsMappings(c.incomplete, c.subject, f.subject, w.st);
    NothingAdded(w.st);
    var completed := if f.subject != "" && !f.skip then Complete(c.incomplete, c.subject, f.subject, w.st) else w.st;
    AddsAboutMore(st, w.st, completed, Names(f, c), {c.subject, f.subject}, Names(f, c));
    var types := if f.typed != "" then Tokens(a.typeof) else [];
    TypesAbout(sc, types, f.typed, completed);
    AddTypesKeepsStore(sc, types, f.typed, completed);
    var typed := AddTypes(sc, types, f.typed, completed);
    AddsAboutMore(st, completed, typed, Names(f, c), {f.typed}, Names(f, c));
    var v := PropertyValue(sc, a, f.typed);
    ListsAboutNothing(sc, Tokens(a.property), m, v, typed);
    TriplesAbout(sc, Tokens(a.property), f.subject, v, typed);
    var r := AddProperties(sc, a, f, m, typed);
    WithMore(typed, r, if a.inlist then {} else {f.subject}, Names(f, c));
    AddsAboutMore(st, typed, r, Names(f, c), Names(f, c), Names(f, c));
  }

  lemma NothingAdded(st: State)
    ensures forall names: set<string> :: AddsAbout(st, st, names)
  {
  }

  lemma WithMore(st: State, r: State, names: set<string>, all: set<string>)
    requires AddsAbout(st, r, names) && names <= all
    ensures AddsAbout(st, r, all)
  {
  }

  /** Where a name established for an element comes from. */
  predicate Established(sc: Scope, a: Attributes, c: Context, f: Found, counter: nat, name: string) {
    || name == "" || name == sc.Resource(a.about) || name == sc.Resource(a.resource) || name == sc.Link(a.href)
    || name == sc.Link(a.src) || name == a.base || name == c.parentObject
    || (name == Blank(counter + 1) && f.counter == counter + 1)
  }

  predicate AllEstablished(sc: Scope, a: Attributes, c: Context, f: Found, counter: nat) {
    && Established(sc, a, c, f, counter, f.subject) && Established(sc, a, c, f, counter, f.resource)
    && Established(sc, a, c, f, counter, f.typed) && f.counter >= counter
  }

  lemma EstablishNames(sc: Scope, a: Attributes, c: Context, counter: nat)
    ensures AllEstablished(sc, a, c, Establish(sc, a, c, counter), counter)
  {
    hide AllEstablished, EstablishForRelation, EstablishForProperty, EstablishOtherwise;
    NamesForRelation(sc, a, c, counter);
    NamesForProperty(sc, a, c, counter);
    NamesOtherwise(sc, a, c, counter);
  }

  lemma NamesForRelation(sc: Scope, a: Attributes, c: Context, counter: nat)
    ensures AllEstablished(sc, a, c, EstablishForRelation(sc, a, c, counter), counter)
  {
    hide Blank;
  }

  lemma NamesForProperty(sc: Scope, a: Attributes, c: Context, counter: nat)
    ensures AllEstablished(sc, a, c, EstablishForProperty(sc, a, c, counter), counter)
  {
    hide Blank;
  }

  lemma NamesOtherwise(sc: Scope, a: Attributes, c: Context, counter: nat)
    ensures AllEstablished(sc, a, c, EstablishOtherwise(sc, a, c, counter), counter)
  {
    hide Blank;
  }

  lemma EmptyIsUnlabelled(low: nat)
    ensures !Generated("", low)
  {
    forall n: nat ensures Blank(n) != "" {
      BlankIsNotNil(n);
    }
  }

  lemma EstablishedIsSafe(sc: Scope, a: Attributes, c: Context, f: Found, name: string, st: State, r: State, low: nat)
    requires Established(sc, a, c, f, st.blankCounter, name)
    requires UnlabelledElement(sc, a, low) && Safe(st, low, c.parentObject) && InOrder(AllEntries(st.printed), low, st.blankCounter)
    requires r.printed == st.printed && st.blankCounter <= r.blankCounter && f.counter <= r.blankCounter
    ensures Safe(r, low, name)
  {
    hide AllEntries, InOrder, Generated, Blank, ListNode;
    EmptyIsUnlabelled(low);
    if name == Blank(st.blankCounter + 1) && f.counter == st.blankCounter + 1 {
      NewIsSafe(st, r, low, st.blankCounter + 1);
    } else if name == c.parentObject {
      SafeLater(st, r, low, name);
    } else {
      UngeneratedIsSafe(st, low, name);
      SafeLater(st, r, low, name);
    }
  }

  lemma SafeLater(st: State, r: State, low: nat, name: string)
    requires Safe(st, low, name) && r.printed == st.printed && st.blankCounter <= r.blankCounter
    ensures Safe(r, low, name)
  {
  }

  /** The names that a visit uses and hands on are all safe. */
  lemma VisitIsSafe(rules: Rules, a: Attributes, c: Context, st: State, low: nat)
    requires c.listMapping < |st.mappings| && InOrder(AllEntries(st.printed), low, st.blankCounter)
    requires UnlabelledElement(ScopeOf(rules, a, c), a, low) && SafeContext(st, low, c) && Clear(st, low)
    ensures var v := VisitElement(rules, a, c, st);
            && v.st.printed == st.printed && st.blankCounter <= v.st.blankCounter
            && SafeContext(v.st, low, v.child) && Clear(v.st, low) && SafeStays(st, v.st, low)
            && (v.deferred.Some? ==> Safe(v.st, low, v.deferred.value.subject))
  {
    hide Establish, Steps, UnlabelledElement, ScopeOf, Safe, Established, Blank, SubjectOf, AllEntries, InOrder, AllCells;
    var sc := ScopeOf(rules, a, c);
    var f := Establish(sc, a, c, st.blankCounter);
    EstablishNames(sc, a, c, st.blankCounter);
    var st1 := RecordSubject(a, f, UseVocabulary(a, st));
    var own := OwnMapping(f, c);
    var st2 := if own then NewMapping(st1) else st1;
    var m := if own then |st1.mappings| else c.listMapping;
    StepsAbout(sc, a, c, f, m, st2);
    var w := Steps(sc, a, c, f, m, st2);
    var v := VisitElement(rules, a, c, st);
    assert v.st.printed == st.printed && f.counter <= v.st.blankCounter && v.st.triples == w.st.triples;
    BaseIsEstablished(sc, a, c, f, st.blankCounter);
    forall name | Established(sc, a, c, f, st.blankCounter, name) ensures Safe(v.st, low, name) {
      EstablishedIsSafe(sc, a, c, f, name, st, v.st, low);
    }
    forall name | Safe(st, low, name) ensures Safe(v.st, low, name) {
      SafeLater(st, v.st, low, name);
    }
    if w.resource == Blank(f.counter + 1) && w.st.blankCounter > f.counter {
      NewIsSafe(st, v.st, low, f.counter + 1);
    }
    assert Safe(v.st, low, w.resource);
    forall t | t in v.st.triples ensures Safe(v.st, low, t.subject) || t in AllCells(AllEntries(v.st.printed)) {
      assert t in st2.triples || t.subject in Names(f, c);
      assert t in st2.triples ==> t in st.triples || t.subject == a.base;
    }
  }

  lemma BaseIsEstablished(sc: Scope, a: Attributes, c: Context, f: Found, counter: nat)
    ensures Established(sc, a, c, f, counter, a.base) && Established(sc, a, c, f, counter, c.parentObject)
    ensures Established(sc, a, c, f, counter, "") && Established(sc, a, c, f, counter, Inherited(a, c))
  {
  }

  // Printing and whole runs -----------------------------------------------------------------------------------------

  lemma {:induction false} PrintedAbout(subject: string, es: seq<Entry>)
    ensures forall t | t in EntriesTriples(subject, es) :: t.subject == subject || t in AllCells(es)
    decreases |es|
  {
    hide Cells;
    if es != [] {
      PrintedAbout(subject, es[1..]);
    }
  }

  /** The nodes that printing names are new: no name that was safe is one of them. */
  lemma PrintKeepsSafe(st: State, subject: string, m: nat, low: nat)
    requires low <= st.blankCounter && m < |st.mappings|
    ensures SafeStays(st, Print(st, subject, m), low)
  {
    hide Entries, EntriesTriples, AllEntries, Named;
    var entries := Entries(st.lists, st.mappings[m], st.blankCounter);
    EntriesMatch(st.lists, st.mappings[m], st.blankCounter);
    AllEntriesStep(st.printed, Emission(m, subject, entries));
    var r := Print(st, subject, m);
    var es, all := AllEntries(st.printed), AllEntries(r.printed);
    assert all == es + entries;
    forall name | Safe(st, low, name) ensures Safe(r, low, name) {
      forall i, k | 0 <= i < |all| && 0 <= k < |all[i].items| ensures name != Node(all[i], k) {
        if i < |es| {
          assert all[i] == es[i];
        } else {
          assert all[i] == entries[i - |es|] && all[i].first + 1 + k > st.blankCounter;
        }
      }
    }
  }

  lemma PrintIsClear(st: State, subject: string, m: nat, low: nat)
    requires low <= st.blankCounter && m < |st.mappings| && Clear(st, low) && Safe(st, low, subject)
    ensures Clear(Print(st, subject, m), low)
  {
    hide Entries, EntriesTriples, AllCells, AllEntries, Safe;
    var entries := Entries(st.lists, st.mappings[m], st.blankCounter);
    PrintedAbout(subject, entries);
    AllEntriesStep(st.printed, Emission(m, subject, entries));
    AllCellsGrow(AllEntries(st.printed), entries);
    PrintKeepsSafe(st, subject, m, low);
  }

  lemma {:induction false} TraverseIsClear(rules: Rules, t: Tree, c: Context, st: State, low: nat)
    requires UnlabelledDocument(rules, t, c, low) && SafeContext(st, low, c) && Clear(st, low)
    requires Sound(st, low) && LiveContext(st, c)
    ensures var r := Traverse(rules, t, c, st); Clear(r, low) && SafeStays(st, r, low)
    decreases t, 0
  {
    hide VisitElement, Print, Keeps, UnlabelledElement, LiveItems, IsPrinted, WellFormed, AllEntries, AllFinal, AllWritten, InOrder;
    hide Clear, Safe;
    VisitIsQuiet(rules, t.attributes, c, st);
    VisitIsSafe(rules, t.attributes, c, st, low);
    var v := VisitElement(rules, t.attributes, c, st);
    QuietIsSound(st, v.st, low);
    ChildScope(rules, t.attributes, c, st);
    forall u | u in t.children ensures UnlabelledDocument(rules, u, v.child, low) {
      SameUnlabelled(rules, u, Inside(rules, t.attributes, c), v.child, low);
    }
    TraverseAllIsClear(rules, t.children, v.child, v.st, low);
    TraverseAllIsSound(rules, t.children, v.child, v.st, low);
    var st' := TraverseAll(rules, t.children, v.child, v.st);
    if v.deferred.Some? {
      PrintIsClear(st', v.deferred.value.subject, v.deferred.value.listMapping, low);
      PrintKeepsSafe(st', v.deferred.value.subject, v.deferred.value.listMapping, low);
    }
  }

  lemma {:induction false} TraverseAllIsClear(rules: Rules, ts: seq<Tree>, c: Context, st: State, low: nat)
    requires (forall t | t in ts :: UnlabelledDocument(rules, t, c, low)) && SafeContext(st, low, c) && Clear(st, low)
    requires Sound(st, low) && LiveContext(st, c) && c.outer.Some?
    ensures var r := TraverseAll(rules, ts, c, st); Clear(r, low) && SafeStays(st, r, low)
    decreases ts, 1
  {
    hide Traverse, UnlabelledDocument, IsPrinted, WellFormed, AllFinal, AllWritten, InOrder, AllEntries, Clear, Safe;
    if ts != [] {
      TraverseIsClear(rules, ts[0], c, st, low);
      TraverseIsSound(rules, ts[0], c, st, low);
      var st' := Traverse(rules, ts[0], c, st);
      LiveAfter(st, st', c);
      TraverseAllIsClear(rules, ts[1..], c, st', low);
    }
  }

  /** In a clear state the nodes of every list carry its own cells alone. */
  lemma ClearOwnsCells(st: State, low: nat, j: nat)
    requires Clear(st, low) && Sound(st, low) && j < |AllEntries(st.printed)|
    ensures OwnCells(st.triples, AllEntries(st.printed)[j], 0)
  {
    hide WellFormed, AllFinal, AllWritten, InOrder, AllEntries, AllCells, Cells, Node;
    var es := AllEntries(st.printed);
    AllCellsAreCells(es);
    forall k, t | 0 <= k < |es[j].items| && t in st.triples && t.subject == Node(es[j], k) && !Plain(t.property)
      ensures IsCell(es[j], k, t) {
      assert ListNode(st, t.subject);
      var i, l :| 0 <= i < |es| && IsCell(es[i], l, t);
      NodesAreDistinct(es, st.blankCounter, j, k, i, l, low);
    }
  }

  /** No printed list is disturbed by another triple. */
  ghost predicate AllReadBack(r: State) {
    forall e, i | e in r.printed && 0 <= i < |e.entries| :: Told(r, r.triples, e, i)
  }

  /**
   When nothing in the document resolves to a label that the parser generates in this run, every printed list
   reads back from all the triples of the run, whatever properties the document uses.
   */
  lemma UnlabelledListsReadBack(rules: Rules, t: Tree, c: Context, st: State)
    requires Starting(st) && c.outer.None? && c.listMapping == 0 && c.incomplete == []
    requires UnlabelledDocument(rules, t, c, st.blankCounter)
    requires !Generated(c.subject, st.blankCounter) && !Generated(c.parentObject, st.blankCounter)
    requires forall x | x in st.triples :: !Generated(x.subject, st.blankCounter)
    ensures AllReadBack(Traverse(rules, t, c, st))
  {
    hide Sound, Traverse, Told, OwnCells, AllEntries, Clear, Safe, UnlabelledDocument, InOrder;
    var low := st.blankCounter;
    StartIsSound(st, c, low);
    StartIsClear(st, c);
    TraverseIsClear(rules, t, c, st, low);
    TraverseIsSound(rules, t, c, st, low);
    EveryListReadsBackIff(rules, t, c, st);
    var r := Traverse(rules, t, c, st);
    forall e, i | e in r.printed && 0 <= i < |e.entries| ensures OwnCells(r.triples, e.entries[i], 0) {
      var j := EntryIsListed(r.printed, e, i);
      ClearOwnsCells(r, low, j);
    }
  }

  lemma StartIsClear(st: State, c: Context)
    requires Starting(st) && !Generated(c.subject, st.blankCounter) && !Generated(c.parentObject, st.blankCounter)
    requires forall x | x in st.triples :: !Generated(x.subject, st.blankCounter)
    ensures Clear(st, st.blankCounter) && SafeContext(st, st.blankCounter, c)
  {
    assert AllEntries(st.printed) == [];
  }

  // Documents in one scope ------------------------------------------------------------------------------------------

  const START: State := State(0, [], [[]], [], [], [])

  function ContextOf(vocabulary: string, prefixes: map<string, string>, base: string): Context {
    Context(None, base, "", [], 0, "", prefixes, vocabulary)
  }

  /** Every element sees the vocabulary, the prefixes and the base that the run starts with. */
  predicate InScope(t: Tree, base: string) {
    && t.attributes.vocab.None? && t.attributes.prefixes == map[] && t.attributes.language == ""
    && t.attributes.base == base && t.attributes.parentBase == base
    && forall u | u in t.children :: InScope(u, base)
  }

  ghost predicate PlainScope(rules: Rules, vocabulary: string, prefixes: map<string, string>, base: string) {
    forall token :: Plain(rules.property(token, vocabulary, prefixes, base))
  }

  ghost predicate UnlabelledScope(rules: Rules, prefixes: map<string, string>, base: string) {
    !Generated(base, 0) && forall value :: !Generated(rules.resource(value, prefixes, base), 0) && !Generated(rules.link(base, value), 0)
  }

  lemma ScopeInScope(rules: Rules, a: Attributes, c: Context)
    requires a.vocab.None? && a.prefixes == map[] && a.language == ""
    ensures ScopeOf(rules, a, c) == Scope(rules, c.vocabulary, c.prefixes, a.base, c.language)
    ensures var i := Inside(rules, a, c); i == c
  {
    assert c.prefixes + map[] == c.prefixes;
  }

  lemma {:induction false} InScopeIsPlain(rules: Rules, t: Tree, c: Context, base: string)
    requires InScope(t, base) && PlainScope(rules, c.vocabulary, c.prefixes, base)
    ensures PlainDocument(rules, t, c)
    decreases t
  {
    hide ScopeOf, Plain;
    ScopeInScope(rules, t.attributes, c);
    forall u | u in t.children ensures PlainDocument(rules, u, Inside(rules, t.attributes, c)) {
      InScopeIsPlain(rules, u, c, base);
    }
  }

  lemma {:induction false} InScopeIsUnlabelled(rules: Rules, t: Tree, c: Context, base: string)
    requires InScope(t, base) && UnlabelledScope(rules, c.prefixes, base)
    ensures UnlabelledDocument(rules, t, c, 0)
    decreases t
  {
    hide ScopeOf, Generated;
    ScopeInScope(rules, t.attributes, c);
    EmptyIsUnlabelled(0);
    forall u | u in t.children ensures UnlabelledDocument(rules, u, Inside(rules, t.attributes, c), 0) {
      InScopeIsUnlabelled(rules, u, c, base);
    }
  }

  // A document whose list does not read back ------------------------------------------------------------------------

  /** An element with a property and content; its subject comes from about, from href, or from the base. */
  function Element(base: string, about: Option<string>, href: Option<string>, topmost: bool, tokens: seq<string>,
                   content: string, inlist: bool): Attributes {
    Attributes(base, base, topmost, false, None, map[], "", None, None, None, Some(tokens), None, Some(content),
               about, None, None, href, inlist, "", "")
  }

  function Times(token: string, n: nat): seq<string> {
    if n == 0 then [] else [token] + Times(token, n - 1)
  }

  function Items(v: Value, n: nat): (r: seq<Value>)
    ensures |r| == n && forall i | 0 <= i < n :: r[i] == v
  {
    seq(n, _ => v)
  }

  /** A list of `n` items about a node, and below it one more use of the property about that node. */
  function ClashTree(base: string, about: Option<string>, href: Option<string>, topmost: bool, token: string, n: nat): Tree {
    Tree(Element(base, about, href, topmost, Times(token, n), "x", true),
         [Tree(Element(base, None, None, false, [token], "y", false), [])])
  }

  /** Names the label that the last node of the list will be given. */
  predicate Labels(rules: Rules, prefixes: map<string, string>, base: string, about: Option<string>, href: Option<string>,
                   topmost: bool, n: nat) {
    && n > 0
    && ((about.Some? && href.None? && rules.resource(about.value, prefixes, base) == Blank(n))
        || (about.None? && href.Some? && rules.link(base, href.value) == Blank(n))
        || (about.None? && href.None? && topmost && base == Blank(n)))
  }

  lemma ClashIsInScope(base: string, about: Option<string>, href: Option<string>, topmost: bool, token: string, n: nat)
    ensures InScope(ClashTree(base, about, href, topmost, token, n), base)
  {
    var child := Tree(Element(base, None, None, false, [token], "y", false), []);
    assert InScope(child, base);
    assert ClashTree(base, about, href, topmost, token, n).children == [child];
  }

  lemma ValueIs(sc: Scope, a: Attributes, content: string)
    requires a.datatypeName.None? && a.content == Some(content) && a.typeof.None?
    ensures PropertyValue(sc, a, "") == Value(PLAIN_LITERAL, content, sc.language)
  {
    assert PLAIN_LITERAL[|RDF|] == 'P' && XML_LITERAL[|RDF|] == 'X';
  }

  /** An element of this kind, in any scope: its subject, and nothing else. */
  lemma ElementEstablishes(sc: Scope, a: Attributes, c: Context, counter: nat, subject: string)
    requires a.rel.None? && a.rev.None? && a.property.Some? && a.content.Some? && a.typeof.None? && !a.headOrBody
    requires a.resource.None? && a.src.None? && subject != ""
    requires var named := Or(sc.Resource(a.about), sc.Link(a.href));
             if named != "" then subject == named
             else if a.topmost then subject == a.base
             else c.parentObject == subject && Inherited(a, c) == subject
    ensures Establish(sc, a, c, counter) == Found(subject, "", "", false, counter)
  {
    hide Inherited, Blank;
  }

  /** No relations, nothing waiting: an element of this kind only says its properties. */
  lemma ElementSteps(sc: Scope, a: Attributes, c: Context, f: Found, m: nat, st: State)
    requires a.rel.None? && a.rev.None? && f.resource == "" && f.typed == "" && c.incomplete == [] && m < |st.mappings|
    ensures Steps(sc, a, c, f, m, st) == Awaited(AddProperties(sc, a, f, m, st), "", [])
  {
    hide AddToLists, AddTriples, PropertyValue;
    assert AwaitItems(sc, [], m, st) == (st, []) && AwaitTriples(sc, [], true) == [] && AwaitTriples(sc, [], false) == [];
    assert AddTypes(sc, [], "", st) == st;
    assert Await(sc, a, f, m, st) == Awaited(st, "", []);
    assert Complete([], c.subject, f.subject, st) == st;
  }

  /** More items for a list that is there. */
  lemma {:induction false} MoreItems(sc: Scope, token: string, n: nat, m: nat, v: Value, st: State, k: nat)
    requires sc.Property(token) != "" && m < |st.mappings|
    requires st.mappings[m] == [Slot(sc.Property(token), 0)] && st.lists == [List(m, Items(v, k))]
    ensures AddToLists(sc, Times(token, n), m, v, st) == st.(lists := [List(m, Items(v, k + n))])
    decreases n
  {
    if n > 0 {
      var p := sc.Property(token);
      assert Find([Slot(p, 0)], p) == 0;
      assert ListFor(st, m, p) == (st, 0);
      assert Items(v, k) + [v] == Items(v, k + 1);
      var st' := st.(lists := [List(m, Items(v, k + 1))]);
      assert AddToList(st, m, p, v) == st';
      assert Times(token, n)[1..] == Times(token, n - 1);
      MoreItems(sc, token, n - 1, m, v, st', k + 1);
    }
  }

  lemma FirstItems(sc: Scope, token: string, n: nat, m: nat, v: Value, st: State)
    requires sc.Property(token) != "" && n > 0 && m < |st.mappings| && st.mappings[m] == [] && st.lists == []
    ensures AddToLists(sc, Times(token, n), m, v, st)
         == st.(lists := [List(m, Items(v, n))], mappings := st.mappings[m := [Slot(sc.Property(token), 0)]])
  {
    var p := sc.Property(token);
    assert Find([], p) == 0;
    assert [] + [Slot(p, 0)] == [Slot(p, 0)] && st.lists + [List(m, [])] == [List(m, [])];
    var st' := st.(lists := [List(m, Items(v, 1))], mappings := st.mappings[m := [Slot(p, 0)]]);
    assert [] + [v] == Items(v, 1);
    assert AddToList(st, m, p, v) == st';
    assert Times(token, n)[0] == token && Times(token, n)[1..] == Times(token, n - 1);
    MoreItems(sc, token, n - 1, m, v, st', 1);
  }

  function Text(content: string): Value {
    Value(PLAIN_LITERAL, content, "")
  }

  /** The list is filled in a mapping of the root's own. */
  lemma VisitRoot(rules: Rules, vocabulary: string, prefixes: map<string, string>, base: string, about: Option<string>,
                  href: Option<string>, topmost: bool, token: string, n: nat) returns (v: Visited)
    requires Labels(rules, prefixes, base, about, href, topmost, n) && rules.property(token, vocabulary, prefixes, base) != ""
    ensures var p := rules.property(token, vocabulary, prefixes, base);
            var a, c := Element(base, about, href, topmost, Times(token, n), "x", true), ContextOf(vocabulary, prefixes, base);
            && v == VisitElement(rules, a, c, START)
            && v.st == START.(mappings := [[], [Slot(p, 0)]], lists := [List(1, Items(Text("x"), n))], subjects := [(a, Blank(n))])
            && v.child == Context(Some(0), Blank(n), Blank(n), [], 1, "", prefixes, vocabulary)
            && v.deferred == Some(Deferred(c, Blank(n), 1))
  {
    hide Establish, Steps, Blank, AddToLists, Times, Items;
    var a, c := Element(base, about, href, topmost, Times(token, n), "x", true), ContextOf(vocabulary, prefixes, base);
    v := VisitElement(rules, a, c, START);
    ScopeInScope(rules, a, c);
    var sc := ScopeOf(rules, a, c);
    BlankIsNotNil(n);
    ElementEstablishes(sc, a, c, 0, Blank(n));
    var f := Found(Blank(n), "", "", false, 0);
    var st1 := RecordSubject(a, f, START);
    assert [] + [(a, Blank(n))] == [(a, Blank(n))];
    var st2 := NewMapping(st1);
    assert st2.mappings == [[], []];
    ElementSteps(sc, a, c, f, 1, st2);
    ValueIs(sc, a, "x");
    FirstItems(sc, token, n, 1, Text("x"), st2);
    assert [[], []][1 := [Slot(sc.Property(token), 0)]] == [[], [Slot(sc.Property(token), 0)]];
  }

  /** The element below says one more triple about the same node. */
  lemma VisitChild(rules: Rules, base: string, token: string, n: nat, c: Context, st: State) returns (v: Visited)
    requires c.outer.Some? && c.parentObject == Blank(n) && c.incomplete == [] && c.language == "" && c.listMapping < |st.mappings|
    requires rules.property(token, c.vocabulary, c.prefixes, base) != ""
    ensures var p := rules.property(token, c.vocabulary, c.prefixes, base);
            var a := Element(base, None, None, false, [token], "y", false);
            && v == VisitElement(rules, a, c, st) && v.deferred.None?
            && v.st == st.(triples := st.triples + [Triple(Blank(n), p, Text("y"))], subjects := st.subjects + [(a, Blank(n))])
  {
    hide Establish, Steps, Blank, AddTriples;
    var a := Element(base, None, None, false, [token], "y", false);
    v := VisitElement(rules, a, c, st);
    ScopeInScope(rules, a, c);
    var sc := ScopeOf(rules, a, c);
    BlankIsNotNil(n);
    ElementEstablishes(sc, a, c, st.blankCounter, Blank(n));
    var f := Found(Blank(n), "", "", false, st.blankCounter);
    var st1 := RecordSubject(a, f, st);
    ElementSteps(sc, a, c, f, c.listMapping, st1);
    ValueIs(sc, a, "y");
    OneTriple(sc, token, Blank(n), Text("y"), st1);
  }

  lemma OneTriple(sc: Scope, token: string, subject: string, v: Value, st: State)
    requires sc.Property(token) != ""
    ensures AddTriples(sc, [token], subject, v, st) == AddTriple(st, subject, sc.Property(token), v)
  {
    assert [token][1..] == [];
    var st' := AddTriple(st, subject, sc.Property(token), v);
    assert AddTriples(sc, [], subject, v, st') == st';
  }

  lemma PrintOne(st: State, subject: string, m: nat, entry: Entry)
    requires m < |st.mappings| && |st.mappings[m]| == 1 && entry == EntryOf(st.lists, st.mappings[m][0], st.blankCounter)
    ensures var r := Print(st, subject, m);
            r.printed == st.printed + [Emission(m, subject, [entry])] && r.triples == st.triples + EntryTriples(subject, entry)
  {
    assert st.mappings[m][1..] == [];
    assert Entries(st.lists, [], st.blankCounter + |entry.items|) == [];
    assert Entries(st.lists, st.mappings[m], st.blankCounter) == [entry];
    assert [entry][1..] == [];
    assert EntriesTriples(subject, []) == [];
    assert EntryTriples(subject, entry) + [] == EntryTriples(subject, entry);
  }

  /** The run of such a document, step by step. */
  lemma ClashRun(rules: Rules, vocabulary: string, prefixes: map<string, string>, base: string, about: Option<string>,
                 href: Option<string>, topmost: bool, token: string, n: nat) returns (entry: Entry)
    requires Labels(rules, prefixes, base, about, href, topmost, n) && rules.property(token, vocabulary, prefixes, base) != ""
    ensures var p := rules.property(token, vocabulary, prefixes, base);
            var r := Traverse(rules, ClashTree(base, about, href, topmost, token, n), ContextOf(vocabulary, prefixes, base), START);
            && entry == Entry(p, 0, Items(Text("x"), n)) && r.printed == [Emission(1, Blank(n), [entry])]
            && r.triples == [Triple(Blank(n), p, Text("y"))] + EntryTriples(Blank(n), entry)
  {
    hide VisitElement, Blank, Items, EntryTriples, Print;
    var c, t := ContextOf(vocabulary, prefixes, base), ClashTree(base, about, href, topmost, token, n);
    var p := rules.property(token, vocabulary, prefixes, base);
    var root := VisitRoot(rules, vocabulary, prefixes, base, about, href, topmost, token, n);
    var below := VisitChild(rules, base, token, n, root.child, root.st);
    var child := t.children[0];
    assert TraverseAll(rules, [], below.child, below.st) == below.st;
    assert Traverse(rules, child, root.child, root.st) == below.st;
    assert t.children[1..] == [];
    assert TraverseAll(rules, t.children, root.child, root.st) == below.st;
    entry := Entry(p, 0, Items(Text("x"), n));
    assert EntryOf(below.st.lists, below.st.mappings[1][0], 0) == entry;
    PrintOne(below.st, Blank(n), 1, entry);
    assert [] + [Triple(Blank(n), p, Text("y"))] == [Triple(Blank(n), p, Text("y"))];
    assert [] + [Emission(1, Blank(n), [entry])] == [Emission(1, Blank(n), [entry])];
  }

  /**
   Whatever the rules: if in one scope a token resolves to rdf:first or rdf:rest, and something the label of a
   blank node, a document in that scope has a list that does not read back.
   */
  lemma ClashBreaksList(rules: Rules, vocabulary: string, prefixes: map<string, string>, base: string, about: Option<string>,
                        href: Option<string>, topmost: bool, token: string, n: nat)
    requires Labels(rules, prefixes, base, about, href, topmost, n) && !Plain(rules.property(token, vocabulary, prefixes, base))
    ensures var t := ClashTree(base, about, href, topmost, token, n);
            InScope(t, base) && !AllReadBack(Traverse(rules, t, ContextOf(vocabulary, prefixes, base), START))
  {
    hide Traverse, Items, EntryTriples, ReadsBack, Cells, Blank, Labels, ClashTree, InScope;
    ClashIsInScope(base, about, href, topmost, token, n);
    var c, t := ContextOf(vocabulary, prefixes, base), ClashTree(base, about, href, topmost, token, n);
    NamesAreSomething();
    var entry := ClashRun(rules, vocabulary, prefixes, base, about, href, topmost, token, n);
    var r := Traverse(rules, t, c, START);
    var foreign := Triple(Blank(n), entry.property, Text("y"));
    assert foreign == r.triples[0];
    EveryListReadsBackIff(rules, t, c, START);
    var e := Emission(1, Blank(n), [entry]);
    assert e in r.printed && e.entries[0] == entry;
    assert 0 < n by { LabelsSomething(rules, prefixes, base, about, href, topmost, n); }
    ForeignCell(r.triples, entry, foreign, n);
    assert !OwnCells(r.triples, e.entries[0], 0);
  }

  lemma LabelsSomething(rules: Rules, prefixes: map<string, string>, base: string, about: Option<string>, href: Option<string>,
                        topmost: bool, n: nat)
    requires Labels(rules, prefixes, base, about, href, topmost, n)
    ensures n > 0
  {
  }

  lemma NamesAreSomething()
    ensures FIRST != "" && REST != ""
  {
  }

  /** A literal with another text is in no cell of a list of one and the same item. */
  lemma ForeignCell(ts: seq<Triple>, entry: Entry, foreign: Triple, n: nat)
    requires n > 0 && entry.first == 0 && entry.items == Items(Text("x"), n)
    requires foreign in ts && foreign == Triple(Blank(n), entry.property, Text("y")) && !Plain(entry.property)
    ensures !OwnCells(ts, entry, 0)
  {
    hide Blank;
    assert Node(entry, n - 1) == Blank(n);
    assert Text("y") != Text("x");
    assert forall name :: Text("y") != Resource(name) by {
      assert PLAIN_LITERAL[|RDF|] == 'P' && OBJECT[|RDF|] == 'o';
    }
    assert !IsCell(entry, n - 1, foreign);
  }

  /**
   In one scope every document has all its lists read back exactly when no token means rdf:first or rdf:rest there,
   or nothing means a label that the parser generates.
   */
  lemma ScopeReadsBackIff(rules: Rules, vocabulary: string, prefixes: map<string, string>, base: string)
    ensures (forall t | InScope(t, base) :: AllReadBack(Traverse(rules, t, ContextOf(vocabulary, prefixes, base), START)))
            <==> PlainScope(rules, vocabulary, prefixes, base) || UnlabelledScope(rules, prefixes, base)
  {
    hide Traverse, AllReadBack, InScope;
    var c := ContextOf(vocabulary, prefixes, base);
    if PlainScope(rules, vocabulary, prefixes, base) {
      forall t | InScope(t, base) ensures AllReadBack(Traverse(rules, t, c, START)) {
        InScopeIsPlain(rules, t, c, base);
        PlainReadsBack(rules, t, c);
      }
    } else if UnlabelledScope(rules, prefixes, base) {
      forall t | InScope(t, base) ensures AllReadBack(Traverse(rules, t, c, START)) {
        InScopeIsUnlabelled(rules, t, c, base);
        EmptyIsUnlabelled(0);
        UnlabelledListsReadBack(rules, t, c, START);
      }
    } else {
      var token :| !Plain(rules.property(token, vocabulary, prefixes, base));
      var about, href, topmost, n := SomeLabel(rules, prefixes, base);
      ClashBreaksList(rules, vocabulary, prefixes, base, about, href, topmost, token, n);
    }
  }

  lemma PlainReadsBack(rules: Rules, t: Tree, c: Context)
    requires PlainDocument(rules, t, c) && c.outer.None? && c.listMapping == 0 && c.incomplete == []
    ensures AllReadBack(Traverse(rules, t, c, START))
  {
    hide Traverse, PlainDocument;
    EveryListReadsBackInTheGraph(rules, t, c, START);
  }

  lemma SomeLabel(rules: Rules, prefixes: map<string, string>, base: string)
    returns (about: Option<string>, href: Option<string>, topmost: bool, n: nat)
    requires !UnlabelledScope(rules, prefixes, base)
    ensures Labels(rules, prefixes, base, about, href, topmost, n)
  {
    hide Blank;
    about, href, topmost := None, None, true;
    if Generated(base, 0) {
      n :| n > 0 && base == Blank(n);
    } else {
      var value :| Generated(rules.resource(value, prefixes, base), 0) || Generated(rules.link(base, value), 0);
      if Generated(rules.resource(value, prefixes, base), 0) {
        about := Some(value);
        n :| n > 0 && rules.resource(value, prefixes, base) == Blank(n);
      } else {
        href := Some(value);
        n :| n > 0 && rules.link(base, value) == Blank(n);
      }
    }
  }

  // One such document -----------------------------------------------------------------------------------------------

  /** The token rest is rdf:rest; names stand for themselves. */
  function PlainNames(): Rules {
    Rules((value: string, prefixes: map<string, string>, base: string) => value,
          (base: string, href: string) => href,
          (token: string, vocabulary: string, prefixes: map<string, string>, base: string) => if token == "rest" then REST else "",
          (token: string, vocabulary: string, prefixes: map<string, string>, base: string) => "",
          (xml: string) => xml,
          "")
  }

  /** A list of one item about `_:1`, and rdf:rest said once more about it. */
  lemma ClashingLabelBreaksList()
    ensures !AllReadBack(Traverse(PlainNames(), ClashTree("urn:b", Some("_:1"), None, true, "rest", 1), ContextOf("", map[], "urn:b"), START))
  {
    assert Blank(1) == "_:1" by { assert Decimal(1) == "1"; }
    ClashBreaksList(PlainNames(), "", map[], "urn:b", Some("_:1"), None, true, "rest", 1);
  }
}
