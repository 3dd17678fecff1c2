/**
 What every RDFa run keeps: a printed list mapping is never written to again, every mapping is printed at
 most once, elements are visited in document order, and every printed list reads back through rdf:rest.
 */
module RdfaLists {
  import opened Helpers

  import opened RdfaStore
  import opened RdfaSteps

  // The invariant -------------------------------------------------------------------------------------------------

  predicate IsPrinted(st: State, m: nat) {
    exists e | e in st.printed :: e.mapping == m
  }

  predicate Live(st: State, m: nat) {
    m < |st.mappings| && !IsPrinted(st, m)
  }

  /** Not a property of list cells. */
  predicate Plain(property: string) {
    property != FIRST && property != REST
  }

  predicate SlotsFit(st: State, m: nat)
    requires m < |st.mappings|
  {
    forall s | s in st.mappings[m] :: s.list < |st.lists| && st.lists[s.list].owner == m
  }

  predicate WellFormed(st: State) {
    && (forall m | 0 <= m < |st.mappings| :: SlotsFit(st, m))
    && (forall e | e in st.printed :: e.mapping < |st.mappings|)
  }

  predicate LiveContext(st: State, c: Context) {
    && Live(st, c.listMapping)
    && (c.outer.Some? ==> c.outer.value < |st.mappings|)
    && LiveItems(st, c.incomplete)
  }

  predicate LiveItems(st: State, waiting: seq<Incomplete>) {
    forall w | w in waiting && w.Listed? :: w.list < |st.lists| && Live(st, st.lists[w.list].owner)
  }

  /** What later steps may not undo: printed mappings and their lists stay, logs grow. */
  predicate Keeps(st: State, r: State) {
    && |st.mappings| <= |r.mappings| && |st.lists| <= |r.lists|
    && st.blankCounter <= r.blankCounter && st.triples <= r.triples && st.printed <= r.printed
    && (forall l | 0 <= l < |st.lists| :: r.lists[l].owner == st.lists[l].owner)
    && (forall m | 0 <= m < |st.mappings| && IsPrinted(st, m) :: r.mappings[m] == st.mappings[m])
    && (forall l | 0 <= l < |st.lists| && IsPrinted(st, st.lists[l].owner) :: r.lists[l] == st.lists[l])
  }

  lemma KeepsTrans(a: State, b: State, c: State)
    requires Keeps(a, b) && Keeps(b, c)
    ensures Keeps(a, c)
  {
    forall m | 0 <= m && IsPrinted(a, m) ensures IsPrinted(b, m) {
      var e :| e in a.printed && e.mapping == m;
      assert e in b.printed;
    }
  }

  /** Steps that print nothing. */
  predicate Quiet(st: State, r: State) {
    Keeps(st, r) && r.printed == st.printed && WellFormed(r)
  }

  lemma QuietTrans(a: State, b: State, c: State)
    requires Quiet(a, b) && Quiet(b, c)
    ensures Quiet(a, c)
  {
    KeepsTrans(a, b, c);
  }

  lemma QuietKeepsLive(st: State, r: State, c: Context)
    requires Quiet(st, r) && LiveContext(st, c)
    ensures LiveContext(r, c)
  {
    assert forall m: nat :: IsPrinted(r, m) == IsPrinted(st, m);
  }

  // Primitive steps -----------------------------------------------------------------------------------------------

  lemma ListForIsQuiet(st: State, m: nat, property: string)
    requires WellFormed(st) && Live(st, m)
    ensures var (r, l) := ListFor(st, m, property);
            && Quiet(st, r) && l < |r.lists| && r.lists[l].owner == m && Live(r, m)
            && r.subjects == st.subjects
  {
    var (r, l) := ListFor(st, m, property);
    var i := Find(st.mappings[m], property);
    if i < |st.mappings[m]| {
      assert SlotsFit(st, m) && st.mappings[m][i] in st.mappings[m];
    } else {
      forall k | 0 <= k < |r.mappings| ensures SlotsFit(r, k) {
        assert SlotsFit(st, k);
      }
      assert forall k: nat :: IsPrinted(r, k) == IsPrinted(st, k);
    }
  }

  lemma PushOnIsQuiet(st: State, l: nat, v: Value)
    requires WellFormed(st) && l < |st.lists| && Live(st, st.lists[l].owner)
    ensures Quiet(st, PushOn(st, l, v)) && PushOn(st, l, v).subjects == st.subjects
  {
    var r := PushOn(st, l, v);
    forall k | 0 <= k < |r.mappings| ensures SlotsFit(r, k) {
      assert SlotsFit(st, k);
    }
  }

  lemma SameStoreIsQuiet(st: State, r: State)
    requires WellFormed(st)
    requires r.mappings == st.mappings && r.lists == st.lists && r.printed == st.printed
    requires st.blankCounter <= r.blankCounter && st.triples <= r.triples
    ensures Quiet(st, r)
  {
    forall k | 0 <= k < |r.mappings| ensures SlotsFit(r, k) {
      assert SlotsFit(st, k);
    }
  }

  lemma NewMappingIsQuiet(st: State)
    requires WellFormed(st)
    ensures Quiet(st, NewMapping(st)) && Live(NewMapping(st), |st.mappings|)
  {
    var r := NewMapping(st);
    forall k | 0 <= k < |r.mappings| ensures SlotsFit(r, k) {
      if k < |st.mappings| { assert SlotsFit(st, k); }
    }
    assert forall e | e in r.printed :: e.mapping < |st.mappings|;
  }

  // The loops over tokens and over waiting items -------------------------------------------------------------------

  lemma AddToListIsQuiet(st: State, m: nat, property: string, v: Value)
    requires WellFormed(st) && Live(st, m)
    ensures Quiet(st, AddToList(st, m, property, v)) && Live(AddToList(st, m, property, v), m)
    ensures AddToList(st, m, property, v).subjects == st.subjects
  {
    hide ListFor, PushOn;
    var (st', l) := ListFor(st, m, property);
    ListForIsQuiet(st, m, property);
    PushOnIsQuiet(st', l, v);
    QuietTrans(st, st', PushOn(st', l, v));
    assert forall k: nat :: IsPrinted(PushOn(st', l, v), k) == IsPrinted(st, k);
  }

  lemma {:induction false} AddToListsIsQuiet(sc: Scope, tokens: seq<string>, m: nat, v: Value, st: State)
    requires WellFormed(st) && Live(st, m)
    ensures Quiet(st, AddToLists(sc, tokens, m, v, st)) && AddToLists(sc, tokens, m, v, st).subjects == st.subjects
    decreases |tokens|
  {
    hide AddToList, IsPrinted, WellFormed;
    if tokens == [] {
      SameStoreIsQuiet(st, st);
    } else {
      var p := sc.Property(tokens[0]);
      if p != "" {
        AddToListIsQuiet(st, m, p, v);
        var st' := AddToList(st, m, p, v);
        AddToListsIsQuiet(sc, tokens[1..], m, v, st');
        QuietTrans(st, st', AddToLists(sc, tokens[1..], m, v, st'));
      } else {
        AddToListsIsQuiet(sc, tokens[1..], m, v, st);
      }
    }
  }

  lemma {:induction false} AwaitItemsIsQuiet(sc: Scope, tokens: seq<string>, m: nat, st: State)
    requires WellFormed(st) && Live(st, m)
    ensures var (r, waiting) := AwaitItems(sc, tokens, m, st);
            && Quiet(st, r) && r.subjects == st.subjects
            && forall w | w in waiting :: w.Listed? && w.list < |r.lists| && r.lists[w.list].owner == m
    decreases |tokens|
  {
    hide ListFor, IsPrinted, WellFormed, Keeps;
    if tokens == [] {
      SameStoreIsQuiet(st, st);
    } else {
      var p := sc.Property(tokens[0]);
      if p == "" {
        AwaitItemsIsQuiet(sc, tokens[1..], m, st);
      } else {
        var (st1, l) := ListFor(st, m, p);
        ListForIsQuiet(st, m, p);
        AwaitItemsIsQuiet(sc, tokens[1..], m, st1);
        var (st2, more) := AwaitItems(sc, tokens[1..], m, st1);
        QuietTrans(st, st1, st2);
        assert l < |st2.lists| && st2.lists[l].owner == m by { KeepsOwner(st1, st2, l); }
      }
    }
  }

  lemma KeepsOwner(st: State, r: State, l: nat)
    requires Keeps(st, r) && l < |st.lists|
    ensures l < |r.lists| && r.lists[l].owner == st.lists[l].owner
  {
  }

  lemma {:induction false} CompleteIsQuiet(waiting: seq<Incomplete>, outer: string, subject: string, st: State)
    requires WellFormed(st) && LiveItems(st, waiting)
    ensures Quiet(st, Complete(waiting, outer, subject, st)) && Complete(waiting, outer, subject, st).subjects == st.subjects
    decreases |waiting|
  {
    hide WellFormed, PushOn;
    if waiting == [] {
      SameStoreIsQuiet(st, st);
    } else {
      var w := waiting[0];
      var st' := CompleteOne(w, outer, subject, st);
      if w.Listed? {
        PushOnIsQuiet(st, w.list, Resource(subject));
      } else {
        SameStoreIsQuiet(st, st');
      }
      assert LiveItems(st', waiting[1..]) by {
        assert forall k: nat :: IsPrinted(st', k) == IsPrinted(st, k);
      }
      CompleteIsQuiet(waiting[1..], outer, subject, st');
      QuietTrans(st, st', Complete(waiting[1..], outer, subject, st'));
    }
  }

  // One element ---------------------------------------------------------------------------------------------------

  lemma RelateIsQuiet(sc: Scope, a: Attributes, f: Found, m: nat, st: State)
    requires WellFormed(st) && Live(st, m)
    ensures Quiet(st, Relate(sc, a, f, m, st)) && Relate(sc, a, f, m, st).subjects == st.subjects
  {
    hide AddToLists, AddTriples, WellFormed, IsPrinted, Keeps;
    var st1 :=
      if a.inlist then AddToLists(sc, Tokens(a.rel), m, Resource(f.resource), st)
      else AddTriples(sc, Tokens(a.rel), f.subject, Resource(f.resource), st);
    if a.inlist {
      AddToListsIsQuiet(sc, Tokens(a.rel), m, Resource(f.resource), st);
    } else {
      AddTriplesKeepsStore(sc, Tokens(a.rel), f.subject, Resource(f.resource), st);
      SameStoreIsQuiet(st, st1);
    }
    var r := Relate(sc, a, f, m, st);
    AddTriplesKeepsStore(sc, Tokens(a.rev), f.resource, Resource(f.subject), st1);
    SameStoreIsQuiet(st1, r);
    QuietTrans(st, st1, r);
  }

  lemma AwaitIsQuiet(sc: Scope, a: Attributes, f: Found, m: nat, st: State)
    requires WellFormed(st) && Live(st, m)
    ensures var w := Await(sc, a, f, m, st);
            Quiet(st, w.st) && w.st.subjects == st.subjects && Owned(w.incomplete, m, w.st)
  {
    hide AwaitItems, AwaitTriples, WellFormed, Keeps;
    var anew := f.subject != "" && (a.rel.Some? || a.rev.Some?);
    var st1 := if anew then NewBlank(st) else st;
    SameStoreIsQuiet(st, st1);
    assert Live(st1, m) by {
      assert forall k: nat :: IsPrinted(st1, k) == IsPrinted(st, k);
    }
    AwaitTriplesHasNoLists(sc, Tokens(a.rel), true);
    AwaitTriplesHasNoLists(sc, Tokens(a.rev), false);
    if a.inlist {
      AwaitItemsIsQuiet(sc, Tokens(a.rel), m, st1);
      QuietTrans(st, st1, AwaitItems(sc, Tokens(a.rel), m, st1).0);
    }
  }

  /** The lists that wait are lists of one mapping. */
  predicate Owned(waiting: seq<Incomplete>, m: nat, st: State) {
    forall w | w in waiting && w.Listed? :: w.list < |st.lists| && st.lists[w.list].owner == m
  }

  lemma {:induction false} AwaitTriplesHasNoLists(sc: Scope, tokens: seq<string>, forward: bool)
    ensures forall w | w in AwaitTriples(sc, tokens, forward) :: !w.Listed?
    decreases |tokens|
  {
    if tokens != [] {
      AwaitTriplesHasNoLists(sc, tokens[1..], forward);
    }
  }

  lemma AddPropertiesIsQuiet(sc: Scope, a: Attributes, f: Found, m: nat, st: State)
    requires WellFormed(st) && Live(st, m)
    ensures Quiet(st, AddProperties(sc, a, f, m, st)) && AddProperties(sc, a, f, m, st).subjects == st.subjects
  {
    hide AddToLists, AddTriples, WellFormed, IsPrinted, Keeps, PropertyValue;
    var v := PropertyValue(sc, a, f.typed);
    if a.inlist {
      AddToListsIsQuiet(sc, Tokens(a.property), m, v, st);
    } else {
      AddTriplesKeepsStore(sc, Tokens(a.property), f.subject, v, st);
      SameStoreIsQuiet(st, AddTriples(sc, Tokens(a.property), f.subject, v, st));
    }
  }

  lemma StepsAreQuiet(sc: Scope, a: Attributes, c: Context, f: Found, m: nat, st: State)
    requires WellFormed(st) && Live(st, m) && LiveContext(st, c)
    ensures var w := Steps(sc, a, c, f, m, st);
            Quiet(st, w.st) && w.st.subjects == st.subjects && Owned(w.incomplete, m, w.st)
  {
    hide Relate, Await, Complete, AddTypes, AddProperties, WellFormed, Keeps;
    var w := if f.resource != "" then Awaited(Relate(sc, a, f, m, st), f.resource, []) else Await(sc, a, f, m, st);
    if f.resource != "" {
      RelateIsQuiet(sc, a, f, m, st);
    } else {
      AwaitIsQuiet(sc, a, f, m, st);
    }
    QuietKeepsLive(st, w.st, c);
    var completed := if f.subject != "" && !f.skip then Complete(c.incomplete, c.subject, f.subject, w.st) else w.st;
    if f.subject != "" && !f.skip {
      CompleteIsQuiet(c.incomplete, c.subject, f.subject, w.st);
      QuietTrans(st, w.st, completed);
    }
    var types := if f.typed != "" then Tokens(a.typeof) else [];
    var typed := AddTypes(sc, types, f.typed, completed);
    AddTypesKeepsStore(sc, types, f.typed, completed);
    assert Quiet(st, completed);
    SameStoreIsQuiet(completed, typed);
    QuietTrans(st, completed, typed);
    LiveMapping(st, typed, m);
    AddPropertiesIsQuiet(sc, a, f, m, typed);
    var r := AddProperties(sc, a, f, m, typed);
    QuietTrans(st, typed, r);
    assert Quiet(w.st, r) by {
      if f.subject == "" || f.skip { SameStoreIsQuiet(w.st, completed); }
      QuietTrans(w.st, completed, typed);
      QuietTrans(w.st, typed, r);
    }
    OwnedKept(w.incomplete, m, w.st, r);
  }

  lemma OwnedKept(waiting: seq<Incomplete>, m: nat, st: State, r: State)
    requires Owned(waiting, m, st) && Keeps(st, r)
    ensures Owned(waiting, m, r)
  {
  }

  lemma LiveMapping(st: State, r: State, m: nat)
    requires Quiet(st, r) && Live(st, m)
    ensures Live(r, m)
  {
    assert IsPrinted(r, m) == IsPrinted(st, m);
  }

  lemma EstablishNamesAtMostOne(sc: Scope, a: Attributes, c: Context, counter: nat)
    ensures var f := Establish(sc, a, c, counter); f.counter == counter || f.counter == counter + 1
  {
    hide Inherited;
  }

  lemma VisitIsQuiet(rules: Rules, a: Attributes, c: Context, st: State)
    requires WellFormed(st) && LiveContext(st, c)
    ensures var v := VisitElement(rules, a, c, st);
            && Quiet(st, v.st) && LiveContext(v.st, v.child)
            && (exists subject :: v.st.subjects == st.subjects + [(a, subject)])
            && (v.deferred.Some? ==>
                var m := v.deferred.value.listMapping;
                Live(v.st, m) && (m >= |st.mappings| || (m == c.listMapping && c.outer.None?)))
  {
    hide Establish, Steps, WellFormed, Keeps, IsPrinted, ScopeOf, SubjectOf, Inherited, Or, UseVocabulary, Owned, LiveItems;
    var sc := ScopeOf(rules, a, c);
    var f := Establish(sc, a, c, st.blankCounter);
    var st1 := RecordSubject(a, f, UseVocabulary(a, st));
    assert Quiet(st, st1) && st1.subjects == st.subjects + [(a, SubjectOf(a, f))] by { BeginIsQuiet(sc, a, c, st); }
    var own := OwnMapping(f, c);
    var st2 := if own then NewMapping(st1) else st1;
    var m := if own then |st1.mappings| else c.listMapping;
    QuietKeepsLive(st, st1, c);
    NewMappingIsQuiet(st1);
    assert Quiet(st1, st2) by { SameStoreIsQuiet(st1, st1); }
    QuietKeepsLive(st1, st2, c);
    StepsAreQuiet(sc, a, c, f, m, st2);
    var w := Steps(sc, a, c, f, m, st2);
    QuietTrans(st, st1, st2);
    QuietTrans(st, st2, w.st);
    LiveMapping(st2, w.st, m);
    var inner := !f.skip && w.resource != "";
    var st3 := if inner then NewMapping(w.st) else w.st;
    NewMappingIsQuiet(w.st);
    assert Quiet(w.st, st3) by { SameStoreIsQuiet(w.st, w.st); }
    QuietTrans(st, w.st, st3);
    QuietKeepsLive(st, st3, c);
    LiveMapping(w.st, st3, m);
    assert LiveItems(st3, w.incomplete) by { OwnedIsLive(w.incomplete, m, w.st, st3); }
    assert st3.subjects == st.subjects + [(a, SubjectOf(a, f))];
    KeepsSizes(st, st1);
    KeepsSizes(st, w.st);
    KeepsSizes(st, st3);
  }

  lemma KeepsSizes(st: State, r: State)
    requires Keeps(st, r)
    ensures |st.mappings| <= |r.mappings|
  {
  }

  lemma OwnedIsLive(waiting: seq<Incomplete>, m: nat, st: State, r: State)
    requires Owned(waiting, m, st) && Quiet(st, r) && Live(r, m)
    ensures LiveItems(r, waiting)
  {
  }

  lemma BeginIsQuiet(sc: Scope, a: Attributes, c: Context, st: State)
    requires WellFormed(st)
    ensures var f := Establish(sc, a, c, st.blankCounter);
            var r := RecordSubject(a, f, UseVocabulary(a, st));
            Quiet(st, r) && r.subjects == st.subjects + [(a, SubjectOf(a, f))]
  {
    hide Establish, WellFormed, Keeps, SubjectOf;
    EstablishNamesAtMostOne(sc, a, c, st.blankCounter);
    SameStoreIsQuiet(st, RecordSubject(a, Establish(sc, a, c, st.blankCounter), UseVocabulary(a, st)));
  }

  // Printed mappings ------------------------------------------------------------------------------------------------

  /** What was printed for a mapping is what the mapping and its lists hold now. */
  predicate Final(st: State, e: Emission) {
    && e.mapping < |st.mappings| && |e.entries| == |st.mappings[e.mapping]|
    && forall i | 0 <= i < |e.entries| ::
        var slot := st.mappings[e.mapping][i];
        && e.entries[i].property == slot.property
        && slot.list < |st.lists| && e.entries[i].items == st.lists[slot.list].items
  }

  predicate AllFinal(st: State) {
    forall e | e in st.printed :: Final(st, e)
  }

  /** The triples of every printed list are in the run's triples. */
  predicate AllWritten(st: State) {
    forall e, i, t | e in st.printed && 0 <= i < |e.entries| && t in EntryTriples(e.subject, e.entries[i]) ::
      t in st.triples
  }

  function AllEntries(printed: seq<Emission>): seq<Entry> {
    if printed == [] then [] else AllEntries(printed[..|printed| - 1]) + printed[|printed| - 1].entries
  }

  /** Each list has used blank nodes named since `low`, after those of the lists before it. */
  predicate InOrder(es: seq<Entry>, low: nat, counter: nat) {
    && (forall i | 0 <= i < |es| :: low <= es[i].first && es[i].first + |es[i].items| <= counter)
    && (forall i, j | 0 <= i < j < |es| :: es[i].first + |es[i].items| <= es[j].first)
  }

  predicate Sound(st: State, low: nat) {
    WellFormed(st) && AllFinal(st) && AllWritten(st) && low <= st.blankCounter
    && InOrder(AllEntries(st.printed), low, st.blankCounter)
  }

  lemma QuietIsSound(st: State, r: State, low: nat)
    requires Sound(st, low) && Quiet(st, r)
    ensures Sound(r, low)
  {
    hide AllEntries, EntryTriples;
    forall e | e in r.printed ensures Final(r, e) {
      assert Final(st, e) && IsPrinted(st, e.mapping) && SlotsFit(st, e.mapping);
      forall i | 0 <= i < |e.entries|
        ensures e.entries[i].items == r.lists[r.mappings[e.mapping][i].list].items
      {
        assert st.mappings[e.mapping][i] in st.mappings[e.mapping];
      }
    }
    forall t | t in st.triples ensures t in r.triples {
    }
  }

  lemma {:induction false} EntriesHoldItems(lists: seq<List>, slots: seq<Slot>, first: nat, i: nat)
    requires i < |slots|
    ensures var e := Entries(lists, slots, first)[i];
            && e.property == slots[i].property
            && e.items == if slots[i].list < |lists| then lists[slots[i].list].items else []
    decreases i
  {
    if i > 0 {
      EntriesHoldItems(lists, slots[1..], first + |EntryOf(lists, slots[0], first).items|, i - 1);
    }
  }

  lemma {:induction false} EntriesFollow(lists: seq<List>, slots: seq<Slot>, first: nat)
    ensures var es := Entries(lists, slots, first); InOrder(es, first, first + Named(es))
    decreases |slots|
  {
    hide InOrder;
    if slots == [] {
      NothingInOrder(first);
    } else {
      var e := EntryOf(lists, slots[0], first);
      var more := Entries(lists, slots[1..], first + |e.items|);
      EntriesFollow(lists, slots[1..], first + |e.items|);
      FollowedBy(e, more, first + |e.items| + Named(more));
      assert Entries(lists, slots, first) == [e] + more && ([e] + more)[1..] == more;
    }
  }

  lemma NothingInOrder(first: nat)
    ensures InOrder([], first, first)
  {
  }

  lemma FollowedBy(e: Entry, more: seq<Entry>, end: nat)
    requires InOrder(more, e.first + |e.items|, end) && e.first + |e.items| <= end
    ensures InOrder([e] + more, e.first, end)
  {
  }

  lemma EntriesMatch(lists: seq<List>, slots: seq<Slot>, first: nat)
    ensures var es := Entries(lists, slots, first);
            && (forall i | 0 <= i < |es| :: es[i].property == slots[i].property
                 && es[i].items == if slots[i].list < |lists| then lists[slots[i].list].items else [])
            && InOrder(es, first, first + Named(es))
  {
    hide Entries, Named, InOrder;
    EntriesFollow(lists, slots, first);
    var es := Entries(lists, slots, first);
    forall i | 0 <= i < |es|
      ensures es[i].property == slots[i].property
      ensures es[i].items == if slots[i].list < |lists| then lists[slots[i].list].items else []
    {
      EntriesHoldItems(lists, slots, first, i);
    }
  }

  lemma {:induction false} EntriesTriplesHold(subject: string, entries: seq<Entry>, i: nat, t: Triple)
    requires i < |entries| && t in EntryTriples(subject, entries[i])
    ensures t in EntriesTriples(subject, entries)
    decreases i
  {
    hide EntryTriples;
    if i > 0 {
      assert entries[1..][i - 1] == entries[i];
      EntriesTriplesHold(subject, entries[1..], i - 1, t);
    }
  }

  lemma AppendInOrder(es: seq<Entry>, more: seq<Entry>, low: nat, counter: nat, counter': nat)
    requires InOrder(es, low, counter) && InOrder(more, counter, counter') && low <= counter <= counter'
    ensures InOrder(es + more, low, counter')
  {
  }

  lemma PrintIsSound(st: State, subject: string, m: nat, low: nat)
    requires Sound(st, low) && Live(st, m)
    ensures var r := Print(st, subject, m);
            && Sound(r, low) && Keeps(st, r) && r.subjects == st.subjects
            && forall k: nat :: IsPrinted(r, k) <==> IsPrinted(st, k) || k == m
  {
    hide Entries, EntriesTriples, Named, EntryTriples, AllEntries, InOrder;
    var r := Print(st, subject, m);
    var entries := Entries(st.lists, st.mappings[m], st.blankCounter);
    var e := Emission(m, subject, entries);
    EntriesMatch(st.lists, st.mappings[m], st.blankCounter);
    assert e in r.printed;
    forall k: nat ensures IsPrinted(r, k) <==> IsPrinted(st, k) || k == m {
      if IsPrinted(st, k) {
        var e' :| e' in st.printed && e'.mapping == k;
        assert e' in r.printed;
      }
    }
    forall k | 0 <= k < |r.mappings| ensures SlotsFit(r, k) {
      assert SlotsFit(st, k);
    }
    assert WellFormed(r);
    forall e' | e' in r.printed ensures Final(r, e') {
      if e' in st.printed {
        assert Final(st, e');
      } else {
        assert SlotsFit(st, m);
        forall i | 0 <= i < |entries| ensures st.mappings[m][i].list < |st.lists| {
          assert st.mappings[m][i] in st.mappings[m];
        }
      }
    }
    forall e', i, t | e' in r.printed && 0 <= i < |e'.entries| && t in EntryTriples(e'.subject, e'.entries[i])
      ensures t in r.triples
    {
      if e' !in st.printed {
        EntriesTriplesHold(subject, entries, i, t);
      }
    }
    assert AllEntries(r.printed) == AllEntries(st.printed) + entries by { AllEntriesStep(st.printed, e); }
    AppendInOrder(AllEntries(st.printed), entries, low, st.blankCounter, r.blankCounter);
  }

  lemma AllEntriesStep(printed: seq<Emission>, e: Emission)
    ensures AllEntries(printed + [e]) == AllEntries(printed) + e.entries
  {
    assert (printed + [e])[..|printed|] == printed;
  }

  // The traversal ---------------------------------------------------------------------------------------------------

  function Preorder(t: Tree): seq<Attributes>
    decreases t, 0
  {
    [t.attributes] + PreorderAll(t.children)
  }

  function PreorderAll(ts: seq<Tree>): seq<Attributes>
    decreases ts, 1
  {
    if ts == [] then [] else Preorder(ts[0]) + PreorderAll(ts[1..])
  }

  function Elements(subjects: seq<(Attributes, string)>): (r: seq<Attributes>)
    ensures |r| == |subjects|
  {
    seq(|subjects|, i requires 0 <= i < |subjects| => subjects[i].0)
  }

  /** A mapping printed on the way is new, or it is the mapping of the first context. */
  predicate PrintsNew(st: State, r: State, c: Context) {
    forall m: nat | IsPrinted(r, m) :: IsPrinted(st, m) || m >= |st.mappings| || (c.outer.None? && m == c.listMapping)
  }

  /** Step 14 never finds its mapping to be the one of the parent context: every deferred mapping is printed. */
  lemma SkipIsNeverTaken(rules: Rules, a: Attributes, c: Context, st: State)
    requires WellFormed(st) && LiveContext(st, c)
    ensures var v := VisitElement(rules, a, c, st);
            v.deferred.Some? ==>
              forall st': State | v.deferred.value.listMapping < |st'.mappings| ::
                Finish(v.deferred.value, st') == Print(st', v.deferred.value.subject, v.deferred.value.listMapping)
  {
    VisitIsQuiet(rules, a, c, st);
  }

  lemma {:induction false} TraverseIsSound(rules: Rules, t: Tree, c: Context, st: State, low: nat)
    requires Sound(st, low) && LiveContext(st, c)
    ensures var r := Traverse(rules, t, c, st);
            && Sound(r, low) && Keeps(st, r) && PrintsNew(st, r, c)
            && Elements(r.subjects) == Elements(st.subjects) + Preorder(t)
    decreases t, 0
  {
    hide Sound, Keeps, VisitElement, Print, LiveItems, IsPrinted, WellFormed;
    assert WellFormed(st) by { SoundIsWellFormed(st, low); }
    VisitIsQuiet(rules, t.attributes, c, st);
    var v := VisitElement(rules, t.attributes, c, st);
    QuietIsSound(st, v.st, low);
    assert Elements(v.st.subjects) == Elements(st.subjects) + [t.attributes];
    TraverseAllIsSound(rules, t.children, v.child, v.st, low);
    var st' := TraverseAll(rules, t.children, v.child, v.st);
    KeepsTrans(st, v.st, st');
    assert Elements(st'.subjects) == Elements(st.subjects) + Preorder(t);
    assert PrintsNew(st, st', c) by { NewSinceQuiet(st, v.st, st', c, v.child); }
    if v.deferred.Some? {
      var d := v.deferred.value;
      assert Live(st', d.listMapping) by { StillLive(v.st, st', v.child, d.listMapping); }
      SkipIsNeverTaken(rules, t.attributes, c, st);
      PrintIsSound(st', d.subject, d.listMapping, low);
      KeepsTrans(st, st', Print(st', d.subject, d.listMapping));
      PrintKeepsSubjects(st', d.subject, d.listMapping);
    }
  }

  lemma PrintKeepsSubjects(st: State, subject: string, m: nat)
    requires m < |st.mappings|
    ensures Print(st, subject, m).subjects == st.subjects
  {
  }

  lemma SoundIsWellFormed(st: State, low: nat)
    requires Sound(st, low)
    ensures WellFormed(st)
  {
  }

  lemma NewSinceQuiet(st: State, q: State, r: State, c: Context, child: Context)
    requires Quiet(st, q) && PrintsNew(q, r, child) && child.outer.Some?
    ensures PrintsNew(st, r, c)
  {
    assert forall m: nat :: IsPrinted(q, m) == IsPrinted(st, m);
  }

  lemma StillLive(st: State, r: State, c: Context, m: nat)
    requires Keeps(st, r) && PrintsNew(st, r, c) && c.outer.Some? && Live(st, m)
    ensures Live(r, m)
  {
  }

  lemma {:induction false} TraverseAllIsSound(rules: Rules, ts: seq<Tree>, c: Context, st: State, low: nat)
    requires Sound(st, low) && LiveContext(st, c) && c.outer.Some?
    ensures var r := TraverseAll(rules, ts, c, st);
            && Sound(r, low) && Keeps(st, r) && PrintsNew(st, r, c)
            && Elements(r.subjects) == Elements(st.subjects) + PreorderAll(ts)
    decreases ts, 1
  {
    hide Sound, Traverse, Preorder, IsPrinted;
    if ts == [] {
      assert Elements(st.subjects) + [] == Elements(st.subjects);
    } else {
      TraverseIsSound(rules, ts[0], c, st, low);
      var st' := Traverse(rules, ts[0], c, st);
      LiveAfter(st, st', c);
      TraverseAllIsSound(rules, ts[1..], c, st', low);
      var r := TraverseAll(rules, ts[1..], c, st');
      KeepsTrans(st, st', r);
      assert Elements(st'.subjects) + PreorderAll(ts[1..]) == Elements(st.subjects) + (Preorder(ts[0]) + PreorderAll(ts[1..]));
    }
  }

  lemma LiveAfter(st: State, r: State, c: Context)
    requires Keeps(st, r) && PrintsNew(st, r, c) && c.outer.Some? && LiveContext(st, c)
    ensures LiveContext(r, c)
  {
  }
}
