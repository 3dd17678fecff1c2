/** What an RDFa element says: its subject, the triples of its attributes, and what it completes for its ancestors. */
module RdfaMeaning {
  import opened Helpers

  import opened RdfaStore
  import opened RdfaSteps
  import RdfaLists

  // Subjects and types ----------------------------------------------------------------------------------------------

  /** What is typed is the subject or the object, and the subject if about resolves; a node is named only to be typed. */
  lemma TypedNode(sc: Scope, a: Attributes, c: Context, counter: nat)
    ensures var f := Establish(sc, a, c, counter);
            && (f.typed != "" ==> a.typeof.Some? && (f.typed == f.subject || f.typed == f.resource))
            && (sc.Resource(a.about) != "" ==>
                  !f.skip && f.subject == sc.Resource(a.about) && (a.typeof.Some? ==> f.typed == f.subject))
            && (f.counter == counter || (f.counter == counter + 1 && f.typed == Blank(f.counter)))
  {
    hide Inherited, Blank;
  }

  lemma {:induction false} TypesAreAdded(sc: Scope, tokens: seq<string>, subject: string, st: State)
    ensures st.triples <= AddTypes(sc, tokens, subject, st).triples
    ensures forall t | t in tokens && sc.Term(t) != "" ::
              Triple(subject, TYPE, RdfaStore.Resource(sc.Term(t))) in AddTypes(sc, tokens, subject, st).triples
    decreases |tokens|
  {
    if tokens != [] {
      var t := sc.Term(tokens[0]);
      var st' := if t != "" then AddTriple(st, subject, TYPE, RdfaStore.Resource(t)) else st;
      TypesAreAdded(sc, tokens[1..], subject, st');
      assert t != "" ==> Triple(subject, TYPE, RdfaStore.Resource(t)) in st'.triples;
      assert tokens == [tokens[0]] + tokens[1..];
    }
  }

  /**
   Every type that resolves is said in the graph: of what about names, if it names something, of the element's
   subject or object in any case, and of every blank node that is named for the element.
   */
  lemma TypesAreSaid(rules: Rules, a: Attributes, c: Context, st: State)
    requires c.listMapping < |st.mappings|
    ensures var sc := ScopeOf(rules, a, c);
            var f, v := Establish(sc, a, c, st.blankCounter), VisitElement(rules, a, c, st);
            && (forall t | f.typed != "" && t in Tokens(a.typeof) && sc.Term(t) != "" ::
                  Triple(f.typed, TYPE, RdfaStore.Resource(sc.Term(t))) in v.st.triples)
            && (f.typed != "" ==> f.typed == f.subject || f.typed == f.resource)
            && (sc.Resource(a.about) != "" && a.typeof.Some? ==> f.typed == f.subject == sc.Resource(a.about))
            && (f.counter == st.blankCounter || (f.counter == st.blankCounter + 1 && f.typed == Blank(f.counter)))
  {
    hide Establish, Relate, Await, Complete, AddTypes, AddProperties, Extends, ScopeOf, SubjectOf, Inherited, Or, Blank;
    var sc := ScopeOf(rules, a, c);
    TypedNode(sc, a, c, st.blankCounter);
    var f := Establish(sc, a, c, st.blankCounter);
    var st1 := RecordSubject(a, f, UseVocabulary(a, st));
    var own := OwnMapping(f, c);
    var st2 := if own then NewMapping(st1) else st1;
    var m := if own then |st1.mappings| else c.listMapping;
    if f.typed != "" {
      StepsSayTypes(sc, a, c, f, m, st2);
    }
  }

  lemma StepsSayTypes(sc: Scope, a: Attributes, c: Context, f: Found, m: nat, st: State)
    requires m < |st.mappings| && f.typed != ""
    ensures forall t | t in Tokens(a.typeof) && sc.Term(t) != "" ::
              Triple(f.typed, TYPE, RdfaStore.Resource(sc.Term(t))) in Steps(sc, a, c, f, m, st).st.triples
  {
    hide Relate, Await, Complete, AddTypes, AddProperties, Extends;
    var w := if f.resource != "" then Awaited(Relate(sc, a, f, m, st), f.resource, []) else Await(sc, a, f, m, st);
    var completed := if f.subject != "" && !f.skip then Complete(c.incomplete, c.subject, f.subject, w.st) else w.st;
    CompleteKeepsMappings(c.incomplete, c.subject, f.subject, w.st);
    TypesAreAdded(sc, Tokens(a.typeof), f.typed, completed);
    AddTypesKeepsStore(sc, Tokens(a.typeof), f.typed, completed);
    var typed := AddTypes(sc, Tokens(a.typeof), f.typed, completed);
    PropertiesExtend(sc, a, f, m, typed);
    ExtendsTriples(typed, AddProperties(sc, a, f, m, typed));
  }

  lemma ExtendsTriples(st: State, r: State)
    requires Extends(st, r)
    ensures forall t | t in st.triples :: t in r.triples
  {
  }

  /** An element that says nothing of its own is transparent: no triples, and its children wait for the same. */
  lemma SkippedIsTransparent(rules: Rules, a: Attributes, c: Context, st: State)
    requires c.listMapping < |st.mappings|
    requires Establish(ScopeOf(rules, a, c), a, c, st.blankCounter).skip
    ensures var v := VisitElement(rules, a, c, st);
            && v.st.triples == UseVocabulary(a, st).triples && v.st.lists == st.lists
            && v.child.subject == c.subject && v.child.incomplete == c.incomplete && v.child.listMapping == c.listMapping
  {
    hide Inherited, Blank, ScopeOf;
    var sc := ScopeOf(rules, a, c);
    var f := Establish(sc, a, c, st.blankCounter);
    assert a.rel.None? && a.rev.None? && a.property.None? && f.resource == "" && f.typed == "";
    var st1 := RecordSubject(a, f, UseVocabulary(a, st));
    var own := OwnMapping(f, c);
    var st2 := if own then NewMapping(st1) else st1;
    NothingToDo(sc, a, c, f, if own then |st1.mappings| else c.listMapping, st2);
  }

  lemma NothingToDo(sc: Scope, a: Attributes, c: Context, f: Found, m: nat, st: State)
    requires m < |st.mappings| && f.skip && f.resource == "" && f.typed == ""
    requires a.rel.None? && a.rev.None? && a.property.None?
    ensures Steps(sc, a, c, f, m, st) == Awaited(st, "", [])
  {
    assert AwaitItems(sc, [], m, st) == (st, []) && AwaitTriples(sc, [], true) == [] && AwaitTriples(sc, [], false) == [];
    assert AddTypes(sc, [], "", st) == st;
    assert AddToLists(sc, [], m, PropertyValue(sc, a, ""), st) == st;
    assert AddTriples(sc, [], f.subject, PropertyValue(sc, a, ""), st) == st;
  }

  // Triples of attributes -------------------------------------------------------------------------------------------

  /** The properties that the tokens of an attribute resolve to, in order. */
  function Properties(sc: Scope, tokens: seq<string>): seq<string> {
    if tokens == [] then []
    else (if sc.Property(tokens[0]) == "" then [] else [sc.Property(tokens[0])]) + Properties(sc, tokens[1..])
  }

  function Each(properties: seq<string>, subject: string, obj: Value): (r: seq<Triple>)
    ensures |r| == |properties|
  {
    seq(|properties|, i requires 0 <= i < |properties| => Triple(subject, properties[i], obj))
  }

  /** One triple for each property, in order, and nothing else. */
  lemma {:induction false} AddTriplesAppends(sc: Scope, tokens: seq<string>, subject: string, obj: Value, st: State)
    ensures AddTriples(sc, tokens, subject, obj, st)
         == st.(triples := st.triples + Each(Properties(sc, tokens), subject, obj))
    decreases |tokens|
  {
    if tokens == [] {
      assert st.triples + [] == st.triples;
    } else {
      var p := sc.Property(tokens[0]);
      var st' := if p != "" then AddTriple(st, subject, p, obj) else st;
      AddTriplesAppends(sc, tokens[1..], subject, obj, st');
      assert Each(Properties(sc, tokens), subject, obj)
          == (if p == "" then [] else [Triple(subject, p, obj)]) + Each(Properties(sc, tokens[1..]), subject, obj);
    }
  }

  /** With an object, rel points from the subject to it and rev back, in that order. */
  lemma RelationsWithObject(sc: Scope, a: Attributes, f: Found, m: nat, st: State)
    requires m < |st.mappings| && !a.inlist
    ensures Relate(sc, a, f, m, st).triples
         == st.triples + Each(Properties(sc, Tokens(a.rel)), f.subject, RdfaStore.Resource(f.resource))
            + Each(Properties(sc, Tokens(a.rev)), f.resource, RdfaStore.Resource(f.subject))
  {
    hide AddTriples, Each, Properties;
    AddTriplesAppends(sc, Tokens(a.rel), f.subject, RdfaStore.Resource(f.resource), st);
    AddTriplesAppends(sc, Tokens(a.rev), f.resource, RdfaStore.Resource(f.subject),
                      AddTriples(sc, Tokens(a.rel), f.subject, RdfaStore.Resource(f.resource), st));
  }

  /** An item goes to the end of the list of its property, which is created if need be; no other list changes. */
  lemma ItemIsAppended(st: State, m: nat, property: string, v: Value)
    requires m < |st.mappings|
    requires forall s | s in st.mappings[m] :: s.list < |st.lists|
    ensures var r := AddToList(st, m, property, v);
            var i := Find(r.mappings[m], property);
            && i < |r.mappings[m]| && st.mappings[m] <= r.mappings[m]
            && var l := r.mappings[m][i].list;
               && l < |r.lists|
               && r.lists[l].items == (if l < |st.lists| then st.lists[l].items else []) + [v]
               && (l >= |st.lists| <==> Find(st.mappings[m], property) == |st.mappings[m]|)
               && (forall k | 0 <= k < |st.lists| && k != l :: r.lists[k] == st.lists[k])
               && r.triples == st.triples
  {
    var slots := st.mappings[m];
    var i := Find(slots, property);
    if i < |slots| {
      assert slots[i] in slots;
    } else {
      FindLast(slots, property, |st.lists|);
    }
  }

  lemma {:induction false} FindLast(slots: seq<Slot>, property: string, l: nat)
    requires Find(slots, property) == |slots|
    ensures Find(slots + [Slot(property, l)], property) == |slots|
    decreases |slots|
  {
    if slots != [] {
      assert (slots + [Slot(property, l)])[1..] == slots[1..] + [Slot(property, l)];
      FindLast(slots[1..], property, l);
    }
  }

  // Triples completed by descendants ---------------------------------------------------------------------------------

  /** What is known of one waiting item once a subject has completed it. */
  predicate Completed(w: Incomplete, outer: string, subject: string, r: State) {
    match w
    case Listed(_, l) => l < |r.lists| ==> RdfaStore.Resource(subject) in r.lists[l].items
    case Forward(p) => Triple(outer, p, RdfaStore.Resource(subject)) in r.triples
    case Reverse(p) => Triple(subject, p, RdfaStore.Resource(outer)) in r.triples
  }

  /** Triples and items, once there, stay. */
  predicate Extends(st: State, r: State) {
    && st.triples <= r.triples && |st.lists| <= |r.lists|
    && forall l | 0 <= l < |st.lists| :: st.lists[l].items <= r.lists[l].items
  }

  lemma CompletedStays(w: Incomplete, outer: string, subject: string, st: State, r: State)
    requires Completed(w, outer, subject, st) && Extends(st, r)
    requires w.Listed? ==> w.list < |st.lists|
    ensures Completed(w, outer, subject, r)
  {
  }

  lemma CompleteOneCompletes(w: Incomplete, outer: string, subject: string, st: State)
    ensures var r := CompleteOne(w, outer, subject, st);
            Completed(w, outer, subject, r) && Extends(st, r) && |r.lists| == |st.lists|
  {
    if w.Listed? && w.list < |st.lists| {
      assert RdfaStore.Resource(subject) in st.lists[w.list].items + [RdfaStore.Resource(subject)];
    }
  }

  lemma {:induction false} CompleteCompletes(waiting: seq<Incomplete>, outer: string, subject: string, st: State)
    requires forall w | w in waiting && w.Listed? :: w.list < |st.lists|
    ensures var r := Complete(waiting, outer, subject, st);
            && Extends(st, r) && |r.lists| == |st.lists|
            && forall w | w in waiting :: Completed(w, outer, subject, r)
    decreases |waiting|
  {
    hide CompleteOne, Completed;
    if waiting != [] {
      var st' := CompleteOne(waiting[0], outer, subject, st);
      CompleteOneCompletes(waiting[0], outer, subject, st);
      CompleteCompletes(waiting[1..], outer, subject, st');
      CompletedStays(waiting[0], outer, subject, st', Complete(waiting[1..], outer, subject, st'));
    }
  }

  lemma {:induction false} AwaitsAll(sc: Scope, tokens: seq<string>, forward: bool, p: string)
    requires p in Properties(sc, tokens)
    ensures (if forward then Forward(p) else Reverse(p)) in AwaitTriples(sc, tokens, forward)
    decreases |tokens|
  {
    var q := sc.Property(tokens[0]);
    var first := if q == "" then [] else [if forward then Forward(q) else Reverse(q)];
    assert AwaitTriples(sc, tokens, forward) == first + AwaitTriples(sc, tokens[1..], forward);
    if q == p && q != "" {
      assert first[0] in first;
    } else {
      assert p in Properties(sc, tokens[1..]);
      AwaitsAll(sc, tokens[1..], forward, p);
    }
  }

  lemma {:induction false} AddToListsExtends(sc: Scope, tokens: seq<string>, m: nat, v: Value, st: State)
    requires m < |st.mappings|
    ensures Extends(st, AddToLists(sc, tokens, m, v, st))
    decreases |tokens|
  {
    if tokens != [] {
      var p := sc.Property(tokens[0]);
      AddToListsExtends(sc, tokens[1..], m, v, if p != "" then AddToList(st, m, p, v) else st);
    }
  }

  lemma {:induction false} AwaitItemsExtends(sc: Scope, tokens: seq<string>, m: nat, st: State)
    requires m < |st.mappings|
    ensures Extends(st, AwaitItems(sc, tokens, m, st).0)
    decreases |tokens|
  {
    if tokens != [] {
      var p := sc.Property(tokens[0]);
      AwaitItemsExtends(sc, tokens[1..], m, if p == "" then st else ListFor(st, m, p).0);
    }
  }

  lemma PropertiesExtend(sc: Scope, a: Attributes, f: Found, m: nat, st: State)
    requires m < |st.mappings|
    ensures Extends(st, AddProperties(sc, a, f, m, st))
  {
    hide AddToLists, AddTriples, PropertyValue;
    var v := PropertyValue(sc, a, f.typed);
    AddToListsExtends(sc, Tokens(a.property), m, v, st);
    AddTriplesKeepsStore(sc, Tokens(a.property), f.subject, v, st);
  }

  lemma BeforeCompletionExtends(sc: Scope, a: Attributes, f: Found, m: nat, st: State)
    requires m < |st.mappings|
    ensures var w := if f.resource != "" then Awaited(Relate(sc, a, f, m, st), f.resource, []) else Await(sc, a, f, m, st);
            |st.lists| <= |w.st.lists| && |w.st.mappings| == |st.mappings| && Extends(st, w.st)
  {
    hide AddToLists, AddTriples, AwaitItems, AwaitTriples;
    AddToListsExtends(sc, Tokens(a.rel), m, RdfaStore.Resource(f.resource), st);
    AddTriplesKeepsStore(sc, Tokens(a.rel), f.subject, RdfaStore.Resource(f.resource), st);
    var st1 := if a.inlist then AddToLists(sc, Tokens(a.rel), m, RdfaStore.Resource(f.resource), st)
               else AddTriples(sc, Tokens(a.rel), f.subject, RdfaStore.Resource(f.resource), st);
    AddTriplesKeepsStore(sc, Tokens(a.rev), f.resource, RdfaStore.Resource(f.subject), st1);
    var st2 := if f.subject != "" && (a.rel.Some? || a.rev.Some?) then NewBlank(st) else st;
    AwaitItemsExtends(sc, Tokens(a.rel), m, st2);
  }

  /** An element with a subject completes everything its context waits for, and undoes nothing said before. */
  lemma ElementCompletes(rules: Rules, a: Attributes, c: Context, st: State)
    requires c.listMapping < |st.mappings|
    requires forall w | w in c.incomplete && w.Listed? :: w.list < |st.lists|
    ensures var f, v := Establish(ScopeOf(rules, a, c), a, c, st.blankCounter), VisitElement(rules, a, c, st);
            f.subject != "" && !f.skip ==> forall w | w in c.incomplete :: Completed(w, c.subject, f.subject, v.st)
  {
    hide Establish, Relate, Await, Complete, AddTypes, AddProperties, Completed, Extends, ScopeOf, SubjectOf, Inherited, Or;
    var sc := ScopeOf(rules, a, c);
    var f := Establish(sc, a, c, st.blankCounter);
    if f.subject != "" && !f.skip {
      var st1 := RecordSubject(a, f, UseVocabulary(a, st));
      var own := OwnMapping(f, c);
      var st2 := if own then NewMapping(st1) else st1;
      var m := if own then |st1.mappings| else c.listMapping;
      BeforeCompletionExtends(sc, a, f, m, st2);
      var w := if f.resource != "" then Awaited(Relate(sc, a, f, m, st2), f.resource, []) else Await(sc, a, f, m, st2);
      CompleteCompletes(c.incomplete, c.subject, f.subject, w.st);
      CompleteKeepsMappings(c.incomplete, c.subject, f.subject, w.st);
      var completed := Complete(c.incomplete, c.subject, f.subject, w.st);
      var types := if f.typed != "" then Tokens(a.typeof) else [];
      AddTypesKeepsStore(sc, types, f.typed, completed);
      var typed := AddTypes(sc, types, f.typed, completed);
      PropertiesExtend(sc, a, f, m, typed);
      var r := AddProperties(sc, a, f, m, typed);
      var v := VisitElement(rules, a, c, st);
      assert v.st.triples == r.triples && v.st.lists == r.lists;
      forall x | x in c.incomplete ensures Completed(x, c.subject, f.subject, v.st) {
        TypesExtend(sc, types, f.typed, completed);
        CompletedStays(x, c.subject, f.subject, completed, typed);
        CompletedStays(x, c.subject, f.subject, typed, r);
        SameCompleted(x, c.subject, f.subject, r, v.st);
      }
    }
  }

  lemma TypesExtend(sc: Scope, tokens: seq<string>, subject: string, st: State)
    ensures Extends(st, AddTypes(sc, tokens, subject, st))
  {
    AddTypesKeepsStore(sc, tokens, subject, st);
  }

  lemma SameCompleted(w: Incomplete, outer: string, subject: string, st: State, r: State)
    requires Completed(w, outer, subject, st) && r.triples == st.triples && r.lists == st.lists
    ensures Completed(w, outer, subject, r)
  {
  }

  /**
   A rel or rev without an object of its own: for every element that is visited with the child context and
   has a subject, each property links the parent's subject and that subject, in its direction.
   */
  lemma HangingRelations(rules: Rules, a: Attributes, c: Context, st: State, b: Attributes, st': State)
    requires c.listMapping < |st.mappings| && !a.inlist
    requires Establish(ScopeOf(rules, a, c), a, c, st.blankCounter).resource == ""
    requires !Establish(ScopeOf(rules, a, c), a, c, st.blankCounter).skip
    requires VisitElement(rules, a, c, st).child.listMapping < |st'.mappings|
    ensures var sc, child := ScopeOf(rules, a, c), VisitElement(rules, a, c, st).child;
            var f, v := Establish(ScopeOf(rules, b, child), b, child, st'.blankCounter), VisitElement(rules, b, child, st');
            f.subject != "" && !f.skip ==>
              && (forall p | p in Properties(sc, Tokens(a.rel)) ::
                    Triple(child.subject, p, RdfaStore.Resource(f.subject)) in v.st.triples)
              && (forall p | p in Properties(sc, Tokens(a.rev)) ::
                    Triple(f.subject, p, RdfaStore.Resource(child.subject)) in v.st.triples)
  {
    hide Establish, Properties, AwaitTriples, ScopeOf, SubjectOf, Inherited, Or, Relate, AddProperties, AddTypes, Complete;
    var sc := ScopeOf(rules, a, c);
    var f0 := Establish(sc, a, c, st.blankCounter);
    var child := VisitElement(rules, a, c, st).child;
    var forwards, backwards := AwaitTriples(sc, Tokens(a.rel), true), AwaitTriples(sc, Tokens(a.rev), false);
    assert child.incomplete == forwards + backwards;
    RdfaLists.AwaitTriplesHasNoLists(sc, Tokens(a.rel), true);
    RdfaLists.AwaitTriplesHasNoLists(sc, Tokens(a.rev), false);
    ElementCompletes(rules, b, child, st');
    var f, v := Establish(ScopeOf(rules, b, child), b, child, st'.blankCounter), VisitElement(rules, b, child, st');
    if f.subject != "" && !f.skip {
      forall p | p in Properties(sc, Tokens(a.rel)) ensures Triple(child.subject, p, RdfaStore.Resource(f.subject)) in v.st.triples {
        AwaitsAll(sc, Tokens(a.rel), true, p);
        assert Completed(Forward(p), child.subject, f.subject, v.st);
      }
      forall p | p in Properties(sc, Tokens(a.rev)) ensures Triple(f.subject, p, RdfaStore.Resource(child.subject)) in v.st.triples {
        AwaitsAll(sc, Tokens(a.rev), false, p);
        assert Completed(Reverse(p), child.subject, f.subject, v.st);
      }
    }
  }
}
