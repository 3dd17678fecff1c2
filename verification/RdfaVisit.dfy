/**
 What one visit says and hands on, in the words of the attributes: the names an element may take for its
 subject, its object and its typed node, in order of precedence; the value of its properties; every triple
 and list item it adds; and what the elements below it are about.
 */
module RdfaVisit {
  import opened Helpers

  import opened RdfaStore
  import opened RdfaSteps
  import opened RdfaMeaning
  import RdfaLists

  // The scope of an element -----------------------------------------------------------------------------------------

  /**
   An element reads its attributes with its own vocabulary, prefixes and language, where it gives any, and
   otherwise with its context's; an empty vocabulary is the default one. It hands on what it reads with.
   */
  lemma NearestScope(rules: Rules, a: Attributes, c: Context, st: State)
    requires c.listMapping < |st.mappings|
    ensures var sc, child := ScopeOf(rules, a, c), VisitElement(rules, a, c, st).child;
            && child.vocabulary == sc.vocabulary && child.language == sc.language && child.prefixes == sc.prefixes
            && (a.vocab.None? ==> sc.vocabulary == c.vocabulary)
            && (a.vocab == Some("") ==> sc.vocabulary == rules.vocabulary)
            && (forall v | v != "" && a.vocab == Some(v) :: sc.vocabulary == v)
            && sc.language == (if a.language == "" then c.language else a.language)
            && (forall p | p in a.prefixes :: p in sc.prefixes && sc.prefixes[p] == a.prefixes[p])
            && (forall p | p in c.prefixes && p !in a.prefixes :: p in sc.prefixes && sc.prefixes[p] == c.prefixes[p])
            && (forall p | p in sc.prefixes :: p in a.prefixes || p in c.prefixes)
  {
    hide Establish, Steps;
  }

  /** How the attributes of an element are resolved in its scope. */
  lemma ScopeResolves(rules: Rules, a: Attributes, c: Context, s: string)
    ensures var sc := ScopeOf(rules, a, c);
            && sc.Property(s) == rules.property(s, sc.vocabulary, sc.prefixes, a.base)
            && sc.Term(s) == rules.term(s, sc.vocabulary, sc.prefixes, a.base)
            && sc.Resource(Some(s)) == rules.resource(s, sc.prefixes, a.base) && sc.Resource(None) == ""
            && sc.Link(Some(s)) == rules.link(a.base, s) && sc.Link(None) == ""
  {
  }

  // The names of an element, in order -------------------------------------------------------------------------------

  /** The first name that is there. */
  function First(names: seq<string>): string {
    if names == [] then "" else if names[0] != "" then names[0] else First(names[1..])
  }

  predicate IsRelation(a: Attributes) {
    a.rel.Some? || a.rev.Some?
  }

  /** A property whose value is not in an attribute of its own. */
  predicate IsPlainProperty(a: Attributes) {
    !IsRelation(a) && a.property.Some? && a.content.None? && a.datatypeName.None?
  }

  /** What the parent is about, or this element's document where the parent was about its own. */
  function Around(a: Attributes, c: Context): string {
    if c.parentObject == a.parentBase then a.base else c.parentObject
  }

  /**
   The subject: what about names; for an element without relation or plain property, what resource, href or
   src names; the document, at its root; a blank node for an element to be typed; what the parent is about.
   */
  function SubjectNames(sc: Scope, a: Attributes, c: Context, n: nat): seq<string> {
    var passive := !IsRelation(a) && !IsPlainProperty(a);
    [sc.Resource(a.about)]
    + (if passive then [sc.Resource(a.resource), sc.Link(a.href), sc.Link(a.src)] else [])
    + (if a.topmost then [a.base]
       else if passive && a.headOrBody then [Around(a, c)]
       else if passive && a.typeof.Some? then [Blank(n + 1)]
       else if c.parentObject != "" then [Around(a, c)]
       else [])
  }

  /** The object: of a relation what resource, or else href, or else src names; a blank node to be typed. */
  function ObjectNames(sc: Scope, a: Attributes, subject: string, n: nat): seq<string> {
    if IsRelation(a) then
      [sc.Resource(a.resource)]
      + (if a.href.Some? then [sc.Link(a.href)]
         else if a.src.Some? then [sc.Link(a.src)]
         else if a.typeof.Some? && a.about.None? && !a.headOrBody then [Blank(n + 1)]
         else [])
    else if
      IsPlainProperty(a) && a.typeof.Some? && First([sc.Resource(a.about), if a.topmost then a.base else ""]) == ""
    then
      [sc.Resource(a.resource), sc.Link(a.href), sc.Link(a.src), if a.headOrBody then subject else "", Blank(n + 1)]
    else []
  }

  /** The node that typeof types. */
  function TypedNames(sc: Scope, a: Attributes, subject: string, n: nat): seq<string> {
    if a.typeof.None? then []
    else if IsRelation(a) && a.about.None? && !a.headOrBody then ObjectNames(sc, a, subject, n)
    else if IsRelation(a) then [if a.about.Some? then sc.Resource(a.about) else subject]
    else if IsPlainProperty(a) then
      [sc.Resource(a.about), if a.topmost then a.base else ""] + ObjectNames(sc, a, subject, n)
    else [subject]
  }

  /** Nothing to say, and nothing named: such an element is passed over. */
  predicate IsIdle(sc: Scope, a: Attributes, c: Context) {
    && !IsRelation(a) && a.property.None? && a.typeof.None? && !a.topmost && !a.headOrBody && c.parentObject != ""
    && First([sc.Resource(a.about), sc.Resource(a.resource), sc.Link(a.href), sc.Link(a.src)]) == ""
  }

  /** The names an element takes: its subject, its object if it names one, its typed node. */
  datatype Names = Names(subject: string, target: string, typed: string, idle: bool)

  function NamesOf(sc: Scope, a: Attributes, c: Context, n: nat): Names {
    var subject := First(SubjectNames(sc, a, c, n));
    Names(subject, First(ObjectNames(sc, a, subject, n)), First(TypedNames(sc, a, subject, n)), IsIdle(sc, a, c))
  }

  lemma {:induction false} FirstOfTwo(names: seq<string>, more: seq<string>)
    ensures First(names + more) == Or(First(names), First(more))
    decreases |names|
  {
    if names == [] {
      assert names + more == more;
    } else {
      assert (names + more)[1..] == names[1..] + more;
      FirstOfTwo(names[1..], more);
    }
  }

  lemma FirstOfOne(s: string)
    ensures First([]) == "" && First([s]) == s
  {
    assert First([s][1..]) == "";
  }

  lemma FirstOfFew(r: string, s: string, t: string)
    ensures First([]) == "" && First([r]) == r && First([r, s]) == Or(r, s) && First([r, s, t]) == Or(Or(r, s), t)
  {
    FirstOfOne(r);
    FirstOfOne(s);
    FirstOfOne(t);
    hide First;
    FirstOfTwo([r], [s]);
    FirstOfTwo([r, s], [t]);
    assert [r] + [s] == [r, s] && [r, s] + [t] == [r, s, t];
  }

  lemma FirstOfFive(names: seq<string>)
    requires |names| == 5
    ensures First(names) == Or(Or(Or(names[0], names[1]), names[2]), Or(names[3], names[4]))
  {
    FirstOfTwo(names[..3], names[3..]);
    assert names == names[..3] + names[3..];
    FirstOfFew(names[0], names[1], names[2]);
    FirstOfFew(names[3], names[4], "");
    assert names[..3] == [names[0], names[1], names[2]] && names[3..] == [names[3], names[4]];
  }

  lemma SubjectIsFirst(sc: Scope, a: Attributes, c: Context, n: nat)
    ensures Establish(sc, a, c, n).subject == First(SubjectNames(sc, a, c, n))
  {
    hide Blank, First;
    BlankIsNotNil(n + 1);
    var passive := !IsRelation(a) && !IsPlainProperty(a);
    var around := Around(a, c);
    var about := [sc.Resource(a.about)];
    var own := if passive then [sc.Resource(a.resource), sc.Link(a.href), sc.Link(a.src)] else [];
    var otherwise :=
      if a.topmost then a.base
      else if passive && a.headOrBody then around
      else if passive && a.typeof.Some? then Blank(n + 1)
      else if c.parentObject != "" then around
      else "";
    var last := if a.topmost || (passive && (a.headOrBody || a.typeof.Some?)) || c.parentObject != "" then [otherwise] else [];
    FirstOfFew(sc.Resource(a.about), "", "");
    FirstOfFew(sc.Resource(a.resource), sc.Link(a.href), sc.Link(a.src));
    FirstOfFew(otherwise, "", "");
    FirstOfTwo(about + own, last);
    FirstOfTwo(about, own);
    assert SubjectNames(sc, a, c, n) == about + own + last;
    assert Inherited(a, c) == around;
    assert First(SubjectNames(sc, a, c, n)) == Or(Or(sc.Resource(a.about), First(own)), otherwise);
  }

  lemma ObjectIsFirst(sc: Scope, a: Attributes, c: Context, n: nat)
    ensures var f := Establish(sc, a, c, n); f.resource == First(ObjectNames(sc, a, f.subject, n))
  {
    hide Blank, First, Inherited;
    BlankIsNotNil(n + 1);
    var f := Establish(sc, a, c, n);
    FirstOfFew(sc.Resource(a.about), if a.topmost then a.base else "", "");
    var names := ObjectNames(sc, a, f.subject, n);
    if IsRelation(a) {
      FirstOfTwo([sc.Resource(a.resource)], names[1..]);
      FirstOfFew(sc.Resource(a.resource), "", "");
      if |names| == 2 {
        FirstOfFew(names[1], "", "");
        assert names == [names[0]] + [names[1]];
      }
    } else if |names| == 5 {
      FirstOfFive(names);
    }
  }

  lemma TypedIsFirst(sc: Scope, a: Attributes, c: Context, n: nat)
    ensures var f := Establish(sc, a, c, n); f.typed == First(TypedNames(sc, a, f.subject, n))
  {
    hide Blank, First, Inherited, ObjectNames;
    BlankIsNotNil(n + 1);
    var f := Establish(sc, a, c, n);
    var above := [sc.Resource(a.about), if a.topmost then a.base else ""];
    ObjectIsFirst(sc, a, c, n);
    FirstOfFew(f.subject, "", "");
    FirstOfFew(sc.Resource(a.about), "", "");
    FirstOfFew(sc.Resource(a.about), if a.topmost then a.base else "", "");
    FirstOfTwo(above, ObjectNames(sc, a, f.subject, n));
    if IsPlainProperty(a) && a.typeof.Some? && First(above) != "" {
      assert f.typed == First(above);
    }
  }

  /** The steps that establish an element's names choose the first in each of these orders. */
  lemma EstablishNames(sc: Scope, a: Attributes, c: Context, n: nat)
    ensures var f := Establish(sc, a, c, n);
            NamesOf(sc, a, c, n) == Names(f.subject, f.resource, f.typed, f.skip)
  {
    hide Blank, First, Inherited, SubjectNames, ObjectNames, TypedNames;
    SubjectIsFirst(sc, a, c, n);
    ObjectIsFirst(sc, a, c, n);
    TypedIsFirst(sc, a, c, n);
    var named := [sc.Resource(a.about), sc.Resource(a.resource), sc.Link(a.href)];
    FirstOfTwo(named, [sc.Link(a.src)]);
    FirstOfFew(sc.Resource(a.about), sc.Resource(a.resource), sc.Link(a.href));
    FirstOfFew(sc.Link(a.src), "", "");
    assert named + [sc.Link(a.src)] == [sc.Resource(a.about), sc.Resource(a.resource), sc.Link(a.href), sc.Link(a.src)];
  }

  /** A blank node that is named is a new one, typed and counted: without one the names do not depend on the count. */
  lemma NewNamesAreCounted(sc: Scope, a: Attributes, c: Context, n: nat, k: nat)
    ensures var f := Establish(sc, a, c, n);
            if f.counter == n then Establish(sc, a, c, k) == f.(counter := k)
            else f.counter == n + 1 && a.typeof.Some? && f.typed == Blank(n + 1) && (f.typed == f.subject || f.typed == f.resource)
  {
    hide Blank, Inherited;
  }

  // The triples that a visit adds -------------------------------------------------------------------------------------

  function VocabularyTriples(a: Attributes): seq<Triple> {
    if a.vocab.Some? && a.vocab.value != "" then [Triple(a.base, USES_VOCABULARY, Value(OBJECT, a.vocab.value, ""))] else []
  }

  /** rel points from the subject to the object, or is left to a list, and rev points back. */
  function RelationTriples(sc: Scope, a: Attributes, subject: string, target: string): seq<Triple> {
    if target == "" then []
    else
      (if a.inlist then [] else Each(Properties(sc, Tokens(a.rel)), subject, Value(OBJECT, target, "")))
      + Each(Properties(sc, Tokens(a.rev)), target, Value(OBJECT, subject, ""))
  }

  function CompletedTriples(waiting: seq<Incomplete>, outer: string, subject: string): seq<Triple> {
    if waiting == [] then [] else CompletedTriple(waiting[0], outer, subject) + CompletedTriples(waiting[1..], outer, subject)
  }

  /** An item of a list makes none. */
  function CompletedTriple(w: Incomplete, outer: string, subject: string): seq<Triple> {
    match w
    case Forward(p) => [Triple(outer, p, Value(OBJECT, subject, ""))]
    case Reverse(p) => [Triple(subject, p, Value(OBJECT, outer, ""))]
    case Listed(_, _) => []
  }

  function TypeTriples(sc: Scope, tokens: seq<string>, typed: string): seq<Triple> {
    if tokens == [] then []
    else
      (if sc.Term(tokens[0]) == "" then [] else [Triple(typed, TYPE, Value(OBJECT, sc.Term(tokens[0]), ""))])
      + TypeTriples(sc, tokens[1..], typed)
  }

  /** All that an element says when its properties have the value `v`, in order. */
  function SaidBy(sc: Scope, a: Attributes, c: Context, names: Names, v: Value): seq<Triple> {
    VocabularyTriples(a)
    + RelationTriples(sc, a, names.subject, names.target)
    + (if names.subject != "" && !names.idle then CompletedTriples(c.incomplete, c.subject, names.subject) else [])
    + (if names.typed != "" then TypeTriples(sc, Tokens(a.typeof), names.typed) else [])
    + (if a.inlist then [] else Each(Properties(sc, Tokens(a.property)), names.subject, v))
  }

  lemma {:induction false} CompleteAdds(waiting: seq<Incomplete>, outer: string, subject: string, st: State)
    ensures Complete(waiting, outer, subject, st).triples == st.triples + CompletedTriples(waiting, outer, subject)
    decreases |waiting|
  {
    if waiting != [] {
      CompleteAdds(waiting[1..], outer, subject, CompleteOne(waiting[0], outer, subject, st));
    }
  }

  lemma {:induction false} AddTypesAdds(sc: Scope, tokens: seq<string>, typed: string, st: State)
    ensures AddTypes(sc, tokens, typed, st).triples == st.triples + TypeTriples(sc, tokens, typed)
    decreases |tokens|
  {
    if tokens != [] {
      var t := sc.Term(tokens[0]);
      AddTypesAdds(sc, tokens[1..], typed, if t != "" then AddTriple(st, typed, TYPE, RdfaStore.Resource(t)) else st);
    }
  }

  lemma {:induction false} AddToListsAddsNone(sc: Scope, tokens: seq<string>, m: nat, v: Value, st: State)
    requires m < |st.mappings|
    ensures var r := AddToLists(sc, tokens, m, v, st);
            r.triples == st.triples && r.subjects == st.subjects && r.blankCounter == st.blankCounter
    decreases |tokens|
  {
    if tokens != [] {
      var p := sc.Property(tokens[0]);
      AddToListsAddsNone(sc, tokens[1..], m, v, if p != "" then AddToList(st, m, p, v) else st);
    }
  }

  lemma {:induction false} AwaitItemsAddsNone(sc: Scope, tokens: seq<string>, m: nat, st: State)
    requires m < |st.mappings|
    ensures var r := AwaitItems(sc, tokens, m, st).0;
            r.triples == st.triples && r.subjects == st.subjects && r.blankCounter == st.blankCounter
    decreases |tokens|
  {
    if tokens != [] {
      var p := sc.Property(tokens[0]);
      AwaitItemsAddsNone(sc, tokens[1..], m, if p == "" then st else ListFor(st, m, p).0);
    }
  }

  lemma RelateAdds(sc: Scope, a: Attributes, f: Found, m: nat, st: State)
    requires m < |st.mappings| && f.resource != ""
    ensures Relate(sc, a, f, m, st).triples == st.triples + RelationTriples(sc, a, f.subject, f.resource)
  {
    hide AddTriples, AddToLists, Each, Properties;
    var obj := RdfaStore.Resource(f.resource);
    AddToListsAddsNone(sc, Tokens(a.rel), m, obj, st);
    AddTriplesAppends(sc, Tokens(a.rel), f.subject, obj, st);
    var st1 := if a.inlist then AddToLists(sc, Tokens(a.rel), m, obj, st) else AddTriples(sc, Tokens(a.rel), f.subject, obj, st);
    AddTriplesAppends(sc, Tokens(a.rev), f.resource, RdfaStore.Resource(f.subject), st1);
  }

  lemma AwaitAdds(sc: Scope, a: Attributes, f: Found, m: nat, st: State)
    requires m < |st.mappings|
    ensures Await(sc, a, f, m, st).st.triples == st.triples
  {
    hide AwaitItems, AwaitTriples;
    AwaitItemsAddsNone(sc, Tokens(a.rel), m, if f.subject != "" && (a.rel.Some? || a.rev.Some?) then NewBlank(st) else st);
  }

  lemma AddPropertiesAdds(sc: Scope, a: Attributes, f: Found, m: nat, st: State)
    requires m < |st.mappings|
    ensures AddProperties(sc, a, f, m, st).triples
         == st.triples
            + (if a.inlist then [] else Each(Properties(sc, Tokens(a.property)), f.subject, PropertyValue(sc, a, f.typed)))
  {
    hide AddTriples, AddToLists, Each, Properties, PropertyValue;
    var v := PropertyValue(sc, a, f.typed);
    AddToListsAddsNone(sc, Tokens(a.property), m, v, st);
    AddTriplesAppends(sc, Tokens(a.property), f.subject, v, st);
  }

  lemma StepsAdd(sc: Scope, a: Attributes, c: Context, f: Found, m: nat, st: State)
    requires m < |st.mappings|
    ensures Steps(sc, a, c, f, m, st).st.triples
         == st.triples
            + RelationTriples(sc, a, f.subject, f.resource)
            + (if f.subject != "" && !f.skip then CompletedTriples(c.incomplete, c.subject, f.subject) else [])
            + (if f.typed != "" then TypeTriples(sc, Tokens(a.typeof), f.typed) else [])
            + (if a.inlist then [] else Each(Properties(sc, Tokens(a.property)), f.subject, PropertyValue(sc, a, f.typed)))
  {
    hide Relate, Await, Complete, AddTypes, AddProperties, Each, Properties, PropertyValue, CompletedTriples, TypeTriples;
    var w := if f.resource != "" then Awaited(Relate(sc, a, f, m, st), f.resource, []) else Await(sc, a, f, m, st);
    if f.resource != "" { RelateAdds(sc, a, f, m, st); } else { AwaitAdds(sc, a, f, m, st); }
    assert w.st.triples == st.triples + RelationTriples(sc, a, f.subject, f.resource);
    hide RelationTriples;
    var completed := if f.subject != "" && !f.skip then Complete(c.incomplete, c.subject, f.subject, w.st) else w.st;
    CompleteKeepsMappings(c.incomplete, c.subject, f.subject, w.st);
    CompleteAdds(c.incomplete, c.subject, f.subject, w.st);
    var types := if f.typed != "" then Tokens(a.typeof) else [];
    AddTypesKeepsStore(sc, types, f.typed, completed);
    AddTypesAdds(sc, types, f.typed, completed);
    assert f.typed == "" ==> TypeTriples(sc, types, f.typed) == [] by { NoTypes(sc, f.typed); }
    AddPropertiesAdds(sc, a, f, m, AddTypes(sc, types, f.typed, completed));
  }

  lemma NoTypes(sc: Scope, typed: string)
    ensures TypeTriples(sc, [], typed) == []
  {
  }

  /** The triples of a visit: none but these, and in this order. */
  lemma VisitAdds(rules: Rules, a: Attributes, c: Context, st: State)
    requires c.listMapping < |st.mappings|
    ensures var sc := ScopeOf(rules, a, c);
            var names := NamesOf(sc, a, c, st.blankCounter);
            && VisitElement(rules, a, c, st).st.triples
            == st.triples + SaidBy(sc, a, c, names, PropertyValue(sc, a, names.typed))
  {
    hide ScopeOf, Establish, NamesOf, Steps, RelationTriples, CompletedTriples, TypeTriples, Each, Properties,
      PropertyValue, SubjectOf;
    var sc := ScopeOf(rules, a, c);
    EstablishNames(sc, a, c, st.blankCounter);
    var f := Establish(sc, a, c, st.blankCounter);
    var st1 := RecordSubject(a, f, UseVocabulary(a, st));
    assert st1.triples == st.triples + VocabularyTriples(a);
    var own := OwnMapping(f, c);
    var m, st2 := if own then |st1.mappings| else c.listMapping, if own then NewMapping(st1) else st1;
    StepsAdd(sc, a, c, f, m, st2);
    assert VisitElement(rules, a, c, st).st.triples == Steps(sc, a, c, f, m, st2).st.triples;
    hide VisitElement, RecordSubject, UseVocabulary, VocabularyTriples;
    InOneSequence(st.triples, VocabularyTriples(a), RelationTriples(sc, a, f.subject, f.resource),
                  if f.subject != "" && !f.skip then CompletedTriples(c.incomplete, c.subject, f.subject) else [],
                  if f.typed != "" then TypeTriples(sc, Tokens(a.typeof), f.typed) else [],
                  if a.inlist then [] else Each(Properties(sc, Tokens(a.property)), f.subject, PropertyValue(sc, a, f.typed)));
  }

  lemma InOneSequence(s: seq<Triple>, t: seq<Triple>, u: seq<Triple>, v: seq<Triple>, w: seq<Triple>, x: seq<Triple>)
    ensures s + t + u + v + w + x == s + (t + u + v + w + x)
  {
  }

  // The list items that a visit adds ----------------------------------------------------------------------------------

  function ListOf(st: State, m: nat, p: string): Option<nat>
    requires m < |st.mappings|
  {
    var i := Find(st.mappings[m], p);
    if i < |st.mappings[m]| then Some(st.mappings[m][i].list) else None
  }

  /** What a list mapping holds for a property. */
  function ItemsOf(st: State, m: nat, p: string): seq<Value>
    requires m < |st.mappings|
  {
    match ListOf(st, m, p)
    case Some(l) => if l < |st.lists| then st.lists[l].items else []
    case None => []
  }

  /** An item for each time that a property is among others. */
  function Picked(properties: seq<string>, p: string, v: Value): seq<Value> {
    if properties == [] then [] else (if properties[0] == p then [v] else []) + Picked(properties[1..], p, v)
  }

  /** An item for each time that something waits for the next item of a list. */
  function WaitedOn(waiting: seq<Incomplete>, l: Option<nat>, v: Value): seq<Value> {
    if waiting == [] then []
    else (if waiting[0].Listed? && l == Some(waiting[0].list) then [v] else []) + WaitedOn(waiting[1..], l, v)
  }

  /** The lists of a mapping exist and are different ones. */
  predicate Separate(st: State) {
    forall m | 0 <= m < |st.mappings| :: SeparateSlots(st.mappings[m], |st.lists|)
  }

  predicate SeparateSlots(slots: seq<Slot>, n: nat) {
    && (forall i | 0 <= i < |slots| :: slots[i].list < n)
    && (forall i, j | 0 <= i < j < |slots| :: slots[i].list != slots[j].list)
  }

  /** A property keeps its list; one that had none has none or a new one. */
  predicate SameList(st: State, r: State, m: nat, p: string)
    requires m < |st.mappings| && m < |r.mappings|
  {
    ListOf(r, m, p) == ListOf(st, m, p)
    || (ListOf(st, m, p).None? && ListOf(r, m, p).Some? && |st.lists| <= ListOf(r, m, p).value)
  }

  lemma AddToListItems(st: State, m: nat, q: string, v: Value, p: string)
    requires m < |st.mappings| && Separate(st)
    ensures var r := AddToList(st, m, q, v);
            && Separate(r) && ItemsOf(r, m, p) == ItemsOf(st, m, p) + (if q == p then [v] else [])
            && |st.lists| <= |r.lists| && SameList(st, r, m, p)
  {
    var (st', l) := ListFor(st, m, q);
    ListForItems(st, m, q, p);
    PushOnItems(st', m, l, v, p);
    if p != q && ListOf(st', m, p).Some? {
      var i, j := Find(st'.mappings[m], p), Find(st'.mappings[m], q);
      assert SeparateSlots(st'.mappings[m], |st'.lists|);
    }
  }

  lemma ListForItems(st: State, m: nat, q: string, p: string)
    requires m < |st.mappings| && Separate(st)
    ensures var (r, l) := ListFor(st, m, q);
            && |r.mappings| == |st.mappings| && |st.lists| <= |r.lists|
            && Separate(r) && ItemsOf(r, m, p) == ItemsOf(st, m, p) && ListOf(r, m, q) == Some(l)
            && l < |r.lists| && SameList(st, r, m, p)
  {
    var slots := st.mappings[m];
    var (r, l) := ListFor(st, m, q);
    assert SeparateSlots(slots, |st.lists|);
    if Find(slots, q) == |slots| {
      ListForKeepsSeparate(st, m, q);
      hide Separate, SeparateSlots;
      FindLast(slots, q, |st.lists|);
      if p != q { FindOther(slots, q, |st.lists|, p); }
    }
  }

  lemma ListForKeepsSeparate(st: State, m: nat, q: string)
    requires m < |st.mappings| && Separate(st)
    ensures Separate(ListFor(st, m, q).0)
  {
    var r := ListFor(st, m, q).0;
    forall k | 0 <= k < |r.mappings| ensures SeparateSlots(r.mappings[k], |r.lists|) {
      assert SeparateSlots(st.mappings[k], |st.lists|);
    }
  }

  lemma {:induction false} FindOther(slots: seq<Slot>, q: string, l: nat, p: string)
    requires p != q
    ensures var i := Find(slots + [Slot(q, l)], p);
            if Find(slots, p) < |slots| then i == Find(slots, p) else i == |slots| + 1
    decreases |slots|
  {
    if slots != [] {
      assert (slots + [Slot(q, l)])[1..] == slots[1..] + [Slot(q, l)];
      FindOther(slots[1..], q, l, p);
    }
  }

  lemma PushOnItems(st: State, m: nat, l: nat, v: Value, p: string)
    requires m < |st.mappings| && Separate(st)
    ensures var r := PushOn(st, l, v);
            && Separate(r) && |r.lists| == |st.lists| && r.mappings == st.mappings
            && ItemsOf(r, m, p) == ItemsOf(st, m, p) + (if ListOf(st, m, p) == Some(l) then [v] else [])
  {
    ListIsThere(st, m, p);
    assert Separate(PushOn(st, l, v));
    hide Separate, Find;
  }

  lemma ListIsThere(st: State, m: nat, p: string)
    requires m < |st.mappings| && Separate(st)
    ensures ListOf(st, m, p).Some? ==> ListOf(st, m, p).value < |st.lists|
  {
    assert SeparateSlots(st.mappings[m], |st.lists|);
  }

  lemma {:induction false} AddToListsItems(sc: Scope, tokens: seq<string>, m: nat, v: Value, st: State, p: string)
    requires m < |st.mappings| && Separate(st) && p != ""
    ensures var r := AddToLists(sc, tokens, m, v, st);
            && Separate(r) && ItemsOf(r, m, p) == ItemsOf(st, m, p) + Picked(Properties(sc, tokens), p, v)
            && |st.lists| <= |r.lists| && SameList(st, r, m, p)
    decreases |tokens|
  {
    hide Separate, ItemsOf, ListOf, AddToList;
    if tokens != [] {
      var q := sc.Property(tokens[0]);
      if q != "" {
        AddToListItems(st, m, q, v, p);
        AddToListsItems(sc, tokens[1..], m, v, AddToList(st, m, q, v), p);
        assert Properties(sc, tokens) == [q] + Properties(sc, tokens[1..]);
        assert ([q] + Properties(sc, tokens[1..]))[1..] == Properties(sc, tokens[1..]);
      } else {
        AddToListsItems(sc, tokens[1..], m, v, st, p);
        assert Properties(sc, tokens) == Properties(sc, tokens[1..]);
      }
    }
  }

  lemma {:induction false} AwaitItemsItems(sc: Scope, tokens: seq<string>, m: nat, st: State, p: string)
    requires m < |st.mappings| && Separate(st)
    ensures var r := AwaitItems(sc, tokens, m, st).0;
            && Separate(r) && ItemsOf(r, m, p) == ItemsOf(st, m, p)
            && |st.lists| <= |r.lists| && SameList(st, r, m, p)
    decreases |tokens|
  {
    hide Separate, ItemsOf, ListOf, ListFor;
    if tokens != [] {
      var q := sc.Property(tokens[0]);
      if q != "" {
        ListForItems(st, m, q, p);
        AwaitItemsItems(sc, tokens[1..], m, ListFor(st, m, q).0, p);
      } else {
        AwaitItemsItems(sc, tokens[1..], m, st, p);
      }
    }
  }

  lemma {:induction false} CompleteItems(waiting: seq<Incomplete>, outer: string, subject: string, st: State, m: nat, p: string)
    requires m < |st.mappings| && Separate(st)
    ensures var r := Complete(waiting, outer, subject, st);
            && Separate(r) && r.mappings == st.mappings && |r.lists| == |st.lists|
            && ItemsOf(r, m, p) == ItemsOf(st, m, p) + WaitedOn(waiting, ListOf(st, m, p), Value(OBJECT, subject, ""))
    decreases |waiting|
  {
    hide Separate, ItemsOf, ListOf, CompleteOne;
    if waiting != [] {
      var st' := CompleteOne(waiting[0], outer, subject, st);
      CompleteOneItems(waiting[0], outer, subject, st, m, p);
      CompleteItems(waiting[1..], outer, subject, st', m, p);
    }
  }

  lemma CompleteOneItems(w: Incomplete, outer: string, subject: string, st: State, m: nat, p: string)
    requires m < |st.mappings| && Separate(st)
    ensures var r := CompleteOne(w, outer, subject, st);
            && Separate(r) && r.mappings == st.mappings && |r.lists| == |st.lists| && ListOf(r, m, p) == ListOf(st, m, p)
            && ItemsOf(r, m, p) == ItemsOf(st, m, p)
               + (if w.Listed? && ListOf(st, m, p) == Some(w.list) then [Value(OBJECT, subject, "")] else [])
  {
    hide Separate, ItemsOf;
    if w.Listed? {
      PushOnItems(st, m, w.list, Value(OBJECT, subject, ""), p);
    } else {
      SameItems(st, CompleteOne(w, outer, subject, st), m, p);
    }
  }

  lemma SameItems(st: State, r: State, m: nat, p: string)
    requires m < |st.mappings| && Separate(st) && r.mappings == st.mappings && r.lists == st.lists
    ensures Separate(r) && ItemsOf(r, m, p) == ItemsOf(st, m, p) && ListOf(r, m, p) == ListOf(st, m, p)
  {
  }

  /** A new list is not waited on. */
  lemma {:induction false} WaitedOnOld(waiting: seq<Incomplete>, st: State, r: State, m: nat, p: string, v: Value)
    requires m < |st.mappings| && m < |r.mappings| && SameList(st, r, m, p)
    requires forall w | w in waiting && w.Listed? :: w.list < |st.lists|
    ensures WaitedOn(waiting, ListOf(r, m, p), v) == WaitedOn(waiting, ListOf(st, m, p), v)
    decreases |waiting|
  {
    if waiting != [] {
      assert waiting[0] in waiting;
      WaitedOnOld(waiting[1..], st, r, m, p, v);
    }
  }

  /** What an element with names and properties of this value files under `p`, in order. */
  function FiledBy(sc: Scope, a: Attributes, c: Context, names: Names, v: Value, l: Option<nat>, p: string): seq<Value> {
    (if a.inlist && names.target != "" then Picked(Properties(sc, Tokens(a.rel)), p, Value(OBJECT, names.target, "")) else [])
    + (if names.subject != "" && !names.idle then WaitedOn(c.incomplete, l, Value(OBJECT, names.subject, "")) else [])
    + (if a.inlist then Picked(Properties(sc, Tokens(a.property)), p, v) else [])
  }

  lemma RelateItems(sc: Scope, a: Attributes, f: Found, m: nat, st: State, p: string)
    requires m < |st.mappings| && Separate(st) && p != ""
    ensures var r := Relate(sc, a, f, m, st);
            && Separate(r) && |st.lists| <= |r.lists| && SameList(st, r, m, p)
            && ItemsOf(r, m, p) == ItemsOf(st, m, p)
               + (if a.inlist then Picked(Properties(sc, Tokens(a.rel)), p, Value(OBJECT, f.resource, "")) else [])
  {
    hide Separate, ItemsOf, ListOf, AddToLists, AddTriples, Picked, Properties;
    var obj := RdfaStore.Resource(f.resource);
    AddToListsItems(sc, Tokens(a.rel), m, obj, st, p);
    AddTriplesKeepsStore(sc, Tokens(a.rel), f.subject, obj, st);
    var st1 := if a.inlist then AddToLists(sc, Tokens(a.rel), m, obj, st) else AddTriples(sc, Tokens(a.rel), f.subject, obj, st);
    if !a.inlist { SameItems(st, st1, m, p); }
    AddTriplesKeepsStore(sc, Tokens(a.rev), f.resource, RdfaStore.Resource(f.subject), st1);
    SameItems(st1, Relate(sc, a, f, m, st), m, p);
  }

  lemma AwaitKeepsItems(sc: Scope, a: Attributes, f: Found, m: nat, st: State, p: string)
    requires m < |st.mappings| && Separate(st)
    ensures var r := Await(sc, a, f, m, st).st;
            Separate(r) && |st.lists| <= |r.lists| && SameList(st, r, m, p) && ItemsOf(r, m, p) == ItemsOf(st, m, p)
  {
    hide Separate, ItemsOf, ListOf, AwaitItems, AwaitTriples;
    var st1 := if f.subject != "" && (a.rel.Some? || a.rev.Some?) then NewBlank(st) else st;
    SameItems(st, st1, m, p);
    AwaitItemsItems(sc, Tokens(a.rel), m, st1, p);
  }

  lemma AddPropertiesItems(sc: Scope, a: Attributes, f: Found, m: nat, st: State, p: string)
    requires m < |st.mappings| && Separate(st) && p != ""
    ensures var r := AddProperties(sc, a, f, m, st);
            && Separate(r) && SameList(st, r, m, p)
            && ItemsOf(r, m, p) == ItemsOf(st, m, p)
               + (if a.inlist then Picked(Properties(sc, Tokens(a.property)), p, PropertyValue(sc, a, f.typed)) else [])
  {
    hide Separate, ItemsOf, ListOf, AddToLists, AddTriples, Picked, Properties, PropertyValue;
    var v := PropertyValue(sc, a, f.typed);
    AddToListsItems(sc, Tokens(a.property), m, v, st, p);
    AddTriplesKeepsStore(sc, Tokens(a.property), f.subject, v, st);
    if !a.inlist { SameItems(st, AddTriples(sc, Tokens(a.property), f.subject, v, st), m, p); }
  }

  lemma StepsFile(sc: Scope, a: Attributes, c: Context, f: Found, m: nat, st: State, p: string)
    requires m < |st.mappings| && Separate(st) && p != ""
    requires forall w | w in c.incomplete && w.Listed? :: w.list < |st.lists|
    ensures var r := Steps(sc, a, c, f, m, st).st;
            && Separate(r)
            && ItemsOf(r, m, p) == ItemsOf(st, m, p)
               + FiledBy(sc, a, c, Names(f.subject, f.resource, f.typed, f.skip), PropertyValue(sc, a, f.typed), ListOf(st, m, p), p)
  {
    hide Separate, ItemsOf, ListOf, Relate, Await, Complete, AddTypes, AddProperties, Picked, WaitedOn, Properties,
      PropertyValue, SameList;
    var w := if f.resource != "" then Awaited(Relate(sc, a, f, m, st), f.resource, []) else Await(sc, a, f, m, st);
    if f.resource != "" { RelateItems(sc, a, f, m, st, p); } else { AwaitKeepsItems(sc, a, f, m, st, p); }
    WaitedOnOld(c.incomplete, st, w.st, m, p, Value(OBJECT, f.subject, ""));
    var completed := if f.subject != "" && !f.skip then Complete(c.incomplete, c.subject, f.subject, w.st) else w.st;
    CompleteKeepsMappings(c.incomplete, c.subject, f.subject, w.st);
    CompleteItems(c.incomplete, c.subject, f.subject, w.st, m, p);
    var types := if f.typed != "" then Tokens(a.typeof) else [];
    AddTypesKeepsStore(sc, types, f.typed, completed);
    var typed := AddTypes(sc, types, f.typed, completed);
    SameItems(completed, typed, m, p);
    AddPropertiesItems(sc, a, f, m, typed, p);
  }

  /** The list mapping an element files its items in: a new one if it has a subject of its own. */
  function MappingOf(names: Names, c: Context, st: State): (m: nat) {
    if names.subject != "" && names.subject != c.parentObject then |st.mappings| else c.listMapping
  }

  /** The items of a visit: none but these, each at the end of the list of its property. */
  lemma VisitFiles(rules: Rules, a: Attributes, c: Context, st: State, p: string)
    requires c.listMapping < |st.mappings| && Separate(st) && p != ""
    requires forall w | w in c.incomplete && w.Listed? :: w.list < |st.lists|
    ensures var sc, r := ScopeOf(rules, a, c), VisitElement(rules, a, c, st).st;
            var names := NamesOf(sc, a, c, st.blankCounter);
            var v, m := PropertyValue(sc, a, names.typed), MappingOf(names, c, st);
            && Separate(r) && m < |r.mappings|
            && ItemsOf(r, m, p)
               == (if m < |st.mappings| then ItemsOf(st, m, p) + FiledBy(sc, a, c, names, v, ListOf(st, m, p), p)
                   else FiledBy(sc, a, c, names, v, None, p))
  {
    hide ScopeOf, Establish, NamesOf, Steps, FiledBy, PropertyValue, SubjectOf, Separate, ItemsOf, ListOf;
    var sc := ScopeOf(rules, a, c);
    EstablishNames(sc, a, c, st.blankCounter);
    var f := Establish(sc, a, c, st.blankCounter);
    var st1 := RecordSubject(a, f, UseVocabulary(a, st));
    var own := OwnMapping(f, c);
    var m := if own then |st1.mappings| else c.listMapping;
    var st2 := if own then NewMapping(st1) else st1;
    SameItems(st, st1, c.listMapping, p);
    if own { NewMappingItems(st1, p); }
    StepsFile(sc, a, c, f, m, st2, p);
    var w := Steps(sc, a, c, f, m, st2).st;
    OneMoreMapping(w, m, p);
  }

  lemma NewMappingItems(st: State, p: string)
    requires Separate(st)
    ensures var r := NewMapping(st);
            Separate(r) && ItemsOf(r, |st.mappings|, p) == [] && ListOf(r, |st.mappings|, p) == None
  {
    forall k | 0 <= k < |st.mappings| + 1 ensures SeparateSlots(NewMapping(st).mappings[k], |st.lists|) {
      assert k < |st.mappings| ==> SeparateSlots(st.mappings[k], |st.lists|);
    }
  }

  lemma OneMoreMapping(st: State, m: nat, p: string)
    requires Separate(st) && m < |st.mappings|
    ensures var r := NewMapping(st); Separate(r) && ItemsOf(r, m, p) == ItemsOf(st, m, p)
  {
    NewMappingItems(st, p);
    assert NewMapping(st).mappings[m] == st.mappings[m];
  }

  // The value of a property -------------------------------------------------------------------------------------------

  /** The lists that something waits for exist. */
  predicate ListsExist(c: Context, st: State) {
    forall w | w in c.incomplete && w.Listed? :: w.list < |st.lists|
  }

  /**
   A visit says that each property of the element has the value `v`: the triples it adds, and what is in the
   list mapping of the element afterwards, are the ones with this value and no others.
   */
  ghost predicate Says(rules: Rules, a: Attributes, c: Context, st: State, v: Value)
    requires c.listMapping < |st.mappings|
  {
    var sc, r := ScopeOf(rules, a, c), VisitElement(rules, a, c, st).st;
    var names := NamesOf(sc, a, c, st.blankCounter);
    var m := MappingOf(names, c, st);
    && r.triples == st.triples + SaidBy(sc, a, c, names, v)
    && m < |r.mappings|
    && (Separate(st) && ListsExist(c, st) ==>
          && Separate(r)
          && forall p | p != "" ::
               ItemsOf(r, m, p)
               == (if m < |st.mappings| then ItemsOf(st, m, p) + FiledBy(sc, a, c, names, v, ListOf(st, m, p), p)
                   else FiledBy(sc, a, c, names, v, None, p)))
  }

  lemma VisitSays(rules: Rules, a: Attributes, c: Context, st: State, v: Value)
    requires c.listMapping < |st.mappings|
    requires var sc := ScopeOf(rules, a, c); v == PropertyValue(sc, a, NamesOf(sc, a, c, st.blankCounter).typed)
    ensures Says(rules, a, c, st, v)
  {
    hide ScopeOf, NamesOf, PropertyValue, FiledBy, SaidBy, VisitElement, Separate, ItemsOf, ListOf;
    VisitAdds(rules, a, c, st);
    MappingIsThere(rules, a, c, st);
    if Separate(st) && ListsExist(c, st) {
      VisitFiles(rules, a, c, st, "p");
      forall p | p != "" ensures
        var sc, r := ScopeOf(rules, a, c), VisitElement(rules, a, c, st).st;
        var names := NamesOf(sc, a, c, st.blankCounter);
        var m := MappingOf(names, c, st);
        ItemsOf(r, m, p)
        == (if m < |st.mappings| then ItemsOf(st, m, p) + FiledBy(sc, a, c, names, v, ListOf(st, m, p), p)
            else FiledBy(sc, a, c, names, v, None, p))
      {
        VisitFiles(rules, a, c, st, p);
      }
    }
  }

  lemma MappingIsThere(rules: Rules, a: Attributes, c: Context, st: State)
    requires c.listMapping < |st.mappings|
    ensures MappingOf(NamesOf(ScopeOf(rules, a, c), a, c, st.blankCounter), c, st) < |VisitElement(rules, a, c, st).st.mappings|
  {
    hide ScopeOf, NamesOf, Establish, Steps, SubjectOf;
    EstablishNames(ScopeOf(rules, a, c), a, c, st.blankCounter);
  }

  /** What resource, or else href, or else src names as the value of a property. */
  function NamedValue(sc: Scope, a: Attributes): string {
    First([sc.Resource(a.resource), if a.href.Some? then sc.Link(a.href) else sc.Link(a.src)])
  }

  lemma NamedValueIs(sc: Scope, a: Attributes)
    ensures NamedValue(sc, a) == Or(sc.Resource(a.resource), if a.href.Some? then sc.Link(a.href) else sc.Link(a.src))
  {
    FirstOfFew(sc.Resource(a.resource), if a.href.Some? then sc.Link(a.href) else sc.Link(a.src), "");
  }

  function LanguageOf(a: Attributes, c: Context): string {
    if a.language == "" then c.language else a.language
  }

  /** Neither an attribute nor a datatype that is one says what the value is. */
  predicate HasNoValue(sc: Scope, a: Attributes) {
    match a.datatypeName
    case Some(d) => d != "" && sc.Term(d) == ""
    case None => a.content.None? && (IsRelation(a) || NamedValue(sc, a) == "")
  }

  lemma KindsDiffer()
    ensures PLAIN_LITERAL != XML_LITERAL && OBJECT != XML_LITERAL && PLAIN_LITERAL != "" && OBJECT != "" && XML_LITERAL != ""
  {
    assert PLAIN_LITERAL[|RDF|] == 'P' && XML_LITERAL[|RDF|] == 'X' && OBJECT[|RDF|] == 'o';
  }

  /** The value is the text of the element. */
  lemma TextIsSaid(rules: Rules, a: Attributes, c: Context, st: State)
    requires c.listMapping < |st.mappings|
    requires HasNoValue(ScopeOf(rules, a, c), a) && (a.typeof.None? || a.about.Some?)
    ensures Says(rules, a, c, st, Value(PLAIN_LITERAL, a.text, LanguageOf(a, c)))
  {
    hide VisitElement, NamesOf, Says;
    KindsDiffer();
    NamedValueIs(ScopeOf(rules, a, c), a);
    VisitSays(rules, a, c, st, Value(PLAIN_LITERAL, a.text, LanguageOf(a, c)));
  }

  /** The value is the node that the element types. */
  lemma TypedNodeIsSaid(rules: Rules, a: Attributes, c: Context, st: State)
    requires c.listMapping < |st.mappings|
    requires HasNoValue(ScopeOf(rules, a, c), a) && a.typeof.Some? && a.about.None?
    ensures Says(rules, a, c, st,
                 Value(OBJECT, NamesOf(ScopeOf(rules, a, c), a, c, st.blankCounter).typed, LanguageOf(a, c)))
  {
    hide VisitElement, NamesOf, Says;
    KindsDiffer();
    NamedValueIs(ScopeOf(rules, a, c), a);
    VisitSays(rules, a, c, st, Value(OBJECT, NamesOf(ScopeOf(rules, a, c), a, c, st.blankCounter).typed, LanguageOf(a, c)));
  }

  /** The value is what the content attribute says. */
  lemma ContentIsSaid(rules: Rules, a: Attributes, c: Context, st: State)
    requires c.listMapping < |st.mappings| && a.content.Some? && a.datatypeName.None?
    ensures Says(rules, a, c, st, Value(PLAIN_LITERAL, a.content.value, LanguageOf(a, c)))
  {
    hide VisitElement, NamesOf, Says;
    KindsDiffer();
    VisitSays(rules, a, c, st, Value(PLAIN_LITERAL, a.content.value, LanguageOf(a, c)));
  }

  /** The value is what resource, href or src names. */
  lemma NamedValueIsSaid(rules: Rules, a: Attributes, c: Context, st: State)
    requires c.listMapping < |st.mappings| && a.content.None? && a.datatypeName.None? && !IsRelation(a)
    requires NamedValue(ScopeOf(rules, a, c), a) != ""
    ensures Says(rules, a, c, st, Value(OBJECT, NamedValue(ScopeOf(rules, a, c), a), LanguageOf(a, c)))
  {
    hide VisitElement, NamesOf, Says;
    KindsDiffer();
    NamedValueIs(ScopeOf(rules, a, c), a);
    VisitSays(rules, a, c, st, Value(OBJECT, NamedValue(ScopeOf(rules, a, c), a), LanguageOf(a, c)));
  }

  /** With a datatype, the content or else the text is a literal of it; an empty datatype makes it a plain one. */
  lemma LiteralIsSaid(rules: Rules, a: Attributes, c: Context, st: State, kind: string)
    requires c.listMapping < |st.mappings| && a.datatypeName.Some?
    requires kind == (if a.datatypeName.value == "" then PLAIN_LITERAL else ScopeOf(rules, a, c).Term(a.datatypeName.value))
    requires kind != "" && kind != XML_LITERAL
    ensures Says(rules, a, c, st, Value(kind, if a.content.Some? then a.content.value else a.text, LanguageOf(a, c)))
  {
    hide VisitElement, NamesOf, Says;
    VisitSays(rules, a, c, st, Value(kind, if a.content.Some? then a.content.value else a.text, LanguageOf(a, c)));
  }

  /** An XML literal is the content, repaired, or else the markup of the element, and has no language. */
  lemma MarkupIsSaid(rules: Rules, a: Attributes, c: Context, st: State)
    requires c.listMapping < |st.mappings| && a.datatypeName.Some? && a.datatypeName.value != ""
    requires ScopeOf(rules, a, c).Term(a.datatypeName.value) == XML_LITERAL
    ensures Says(rules, a, c, st, Value(XML_LITERAL, if a.content.Some? then rules.fixXml(a.content.value) else a.xml, ""))
  {
    hide VisitElement, NamesOf, Says;
    KindsDiffer();
    VisitSays(rules, a, c, st, Value(XML_LITERAL, if a.content.Some? then rules.fixXml(a.content.value) else a.xml, ""));
  }

  /** Outside lists, each token that resolves makes one triple, and the triples of the properties are the last ones. */
  lemma SaidOfEachToken(rules: Rules, a: Attributes, c: Context, st: State, v: Value, token: string)
    requires c.listMapping < |st.mappings| && Says(rules, a, c, st, v) && !a.inlist
    ensures var sc, r := ScopeOf(rules, a, c), VisitElement(rules, a, c, st).st;
            var subject := NamesOf(sc, a, c, st.blankCounter).subject;
            && (token in Tokens(a.property) && sc.Property(token) != "" ==> Triple(subject, sc.Property(token), v) in r.triples)
            && var said := Each(Properties(sc, Tokens(a.property)), subject, v);
               |said| <= |r.triples| && r.triples[|r.triples| - |said|..] == said
  {
    hide ScopeOf, NamesOf, VisitElement, RelationTriples, CompletedTriples, TypeTriples, VocabularyTriples;
    var sc := ScopeOf(rules, a, c);
    var names := NamesOf(sc, a, c, st.blankCounter);
    var said := Each(Properties(sc, Tokens(a.property)), names.subject, v);
    if token in Tokens(a.property) && sc.Property(token) != "" {
      var i := TokenResolves(sc, Tokens(a.property), token);
      assert said[i] == Triple(names.subject, sc.Property(token), v);
      assert said[i] in SaidBy(sc, a, c, names, v);
    }
  }

  lemma {:induction false} TokenResolves(sc: Scope, tokens: seq<string>, token: string) returns (i: nat)
    requires token in tokens && sc.Property(token) != ""
    ensures i < |Properties(sc, tokens)| && Properties(sc, tokens)[i] == sc.Property(token)
    decreases |tokens|
  {
    if tokens[0] == token {
      i := 0;
    } else {
      i := TokenResolves(sc, tokens[1..], token);
      if sc.Property(tokens[0]) != "" {
        i := i + 1;
      }
    }
  }

  // What is handed on -------------------------------------------------------------------------------------------------

  /** The new blank node that stands for the object of a relation without one. */
  function Standing(a: Attributes, names: Names, n: nat): string {
    if IsRelation(a) && names.subject != "" && names.target == "" then Blank(n + 1) else ""
  }

  /** What elements below are about: the object, if there is one, or else the subject, or else what the context is about. */
  function Below(a: Attributes, c: Context, names: Names, n: nat): string {
    if names.idle then Around(a, c) else First([Or(names.target, Standing(a, names, n)), names.subject, c.subject])
  }

  /** The relations that are left to be completed below. */
  function LeftOpen(sc: Scope, a: Attributes): seq<Incomplete> {
    var forwards, backwards := Properties(sc, Tokens(a.rel)), Properties(sc, Tokens(a.rev));
    seq(|forwards|, i requires 0 <= i < |forwards| => Forward(forwards[i]))
    + seq(|backwards|, i requires 0 <= i < |backwards| => Reverse(backwards[i]))
  }

  lemma {:induction false} AwaitTriplesAre(sc: Scope, tokens: seq<string>, forward: bool)
    ensures var ps := Properties(sc, tokens);
            AwaitTriples(sc, tokens, forward)
            == seq(|ps|, i requires 0 <= i < |ps| => if forward then Forward(ps[i]) else Reverse(ps[i]))
    decreases |tokens|
  {
    if tokens != [] {
      AwaitTriplesAre(sc, tokens[1..], forward);
    }
  }

  lemma LeftOpenIs(sc: Scope, a: Attributes)
    ensures LeftOpen(sc, a) == AwaitTriples(sc, Tokens(a.rel), true) + AwaitTriples(sc, Tokens(a.rev), false)
  {
    hide AwaitTriples, Properties;
    AwaitTriplesAre(sc, Tokens(a.rel), true);
    AwaitTriplesAre(sc, Tokens(a.rev), false);
  }

  lemma StepsHandOn(sc: Scope, a: Attributes, c: Context, f: Found, m: nat, st: State)
    requires m < |st.mappings|
    ensures var w := Steps(sc, a, c, f, m, st);
            var standing := if IsRelation(a) && f.subject != "" && f.resource == "" then Blank(st.blankCounter + 1) else "";
            && w.resource == Or(f.resource, standing)
            && (f.resource != "" ==> w.incomplete == [])
            && (f.resource == "" && !a.inlist ==> w.incomplete == LeftOpen(sc, a))
  {
    hide Relate, Complete, AddTypes, AddProperties, AwaitItems, AwaitTriples, Blank, LeftOpen;
    BlankIsNotNil(st.blankCounter + 1);
    var w := if f.resource != "" then Awaited(Relate(sc, a, f, m, st), f.resource, []) else Await(sc, a, f, m, st);
    CompleteKeepsMappings(c.incomplete, c.subject, f.subject, w.st);
    var completed := if f.subject != "" && !f.skip then Complete(c.incomplete, c.subject, f.subject, w.st) else w.st;
    AddTypesKeepsStore(sc, if f.typed != "" then Tokens(a.typeof) else [], f.typed, completed);
    LeftOpenIs(sc, a);
  }

  lemma {:induction false} CompleteRecordsNothing(waiting: seq<Incomplete>, outer: string, subject: string, st: State)
    ensures var r := Complete(waiting, outer, subject, st);
            r.subjects == st.subjects && r.blankCounter == st.blankCounter
    decreases |waiting|
  {
    if waiting != [] {
      CompleteRecordsNothing(waiting[1..], outer, subject, CompleteOne(waiting[0], outer, subject, st));
    }
  }

  lemma StepsRecord(sc: Scope, a: Attributes, c: Context, f: Found, m: nat, st: State)
    requires m < |st.mappings|
    ensures var r := Steps(sc, a, c, f, m, st).st;
            && r.subjects == st.subjects
            && r.blankCounter == (if IsRelation(a) && f.subject != "" && f.resource == "" then st.blankCounter + 1 else st.blankCounter)
  {
    hide Complete, AddTypes, AddTriples, AddToLists, AwaitItems, AwaitTriples, PropertyValue, Blank;
    var w := if f.resource != "" then Awaited(Relate(sc, a, f, m, st), f.resource, []) else Await(sc, a, f, m, st);
    var obj := RdfaStore.Resource(f.resource);
    AddToListsAddsNone(sc, Tokens(a.rel), m, obj, st);
    AddTriplesKeepsStore(sc, Tokens(a.rel), f.subject, obj, st);
    var st1 := if a.inlist then AddToLists(sc, Tokens(a.rel), m, obj, st) else AddTriples(sc, Tokens(a.rel), f.subject, obj, st);
    AddTriplesKeepsStore(sc, Tokens(a.rev), f.resource, RdfaStore.Resource(f.subject), st1);
    AwaitItemsAddsNone(sc, Tokens(a.rel), m, if f.subject != "" && (a.rel.Some? || a.rev.Some?) then NewBlank(st) else st);
    var completed := if f.subject != "" && !f.skip then Complete(c.incomplete, c.subject, f.subject, w.st) else w.st;
    CompleteKeepsMappings(c.incomplete, c.subject, f.subject, w.st);
    CompleteRecordsNothing(c.incomplete, c.subject, f.subject, w.st);
    var types := if f.typed != "" then Tokens(a.typeof) else [];
    AddTypesKeepsStore(sc, types, f.typed, completed);
    var typed := AddTypes(sc, types, f.typed, completed);
    AddToListsAddsNone(sc, Tokens(a.property), m, PropertyValue(sc, a, f.typed), typed);
    AddTriplesKeepsStore(sc, Tokens(a.property), f.subject, PropertyValue(sc, a, f.typed), typed);
  }

  /**
   What an element hands on. One that is idle hands on what it was given; any other leaves open the relations
   that it has no object for, and no others.
   */
  lemma VisitHandsOn(rules: Rules, a: Attributes, c: Context, st: State)
    requires c.listMapping < |st.mappings|
    ensures var sc, child := ScopeOf(rules, a, c), VisitElement(rules, a, c, st).child;
            var names := NamesOf(sc, a, c, st.blankCounter);
            && child.parentObject == Below(a, c, names, st.blankCounter)
            && child.subject == (if names.idle || names.subject == "" then c.subject else names.subject)
            && (names.idle ==> child.incomplete == c.incomplete && child.listMapping == c.listMapping)
            && (!names.idle && names.target != "" ==> child.incomplete == [])
            && (!names.idle && names.target == "" && !a.inlist ==> child.incomplete == LeftOpen(sc, a))
  {
    hide ScopeOf, NamesOf, Establish, Steps, SubjectOf, Blank, LeftOpen, First;
    var sc := ScopeOf(rules, a, c);
    var n := st.blankCounter;
    EstablishNames(sc, a, c, n);
    var f := Establish(sc, a, c, n);
    var names := NamesOf(sc, a, c, n);
    var st1 := RecordSubject(a, f, UseVocabulary(a, st));
    var own := OwnMapping(f, c);
    var m, st2 := if own then |st1.mappings| else c.listMapping, if own then NewMapping(st1) else st1;
    StepsHandOn(sc, a, c, f, m, st2);
    if IsRelation(a) && names.target == "" { NothingCounted(sc, a, c, n); }
    FirstOfFew(Or(names.target, Standing(a, names, n)), names.subject, c.subject);
  }

  lemma NothingCounted(sc: Scope, a: Attributes, c: Context, n: nat)
    requires IsRelation(a) && Establish(sc, a, c, n).resource == ""
    ensures Establish(sc, a, c, n).counter == n
  {
    hide Blank, Inherited;
    BlankIsNotNil(n + 1);
  }

  /**
   What a visit records: the subject it sets on the element, the blank nodes it names, and the list mapping
   that is to be printed, for the object if there is one and otherwise for the subject.
   */
  lemma VisitRecords(rules: Rules, a: Attributes, c: Context, st: State)
    requires c.listMapping < |st.mappings|
    ensures var sc, v := ScopeOf(rules, a, c), VisitElement(rules, a, c, st);
            var n := st.blankCounter;
            var names := NamesOf(sc, a, c, n);
            var standing := Standing(a, names, n);
            var target := Or(names.target, standing);
            var typedHere := a.typeof.Some? && a.about.None? && names.subject != "";
            var given := if typedHere then Or(names.target, names.subject) else names.subject;
            && v.st.subjects == st.subjects + [(a, given)]
            && v.st.blankCounter == (if standing != "" then n + 1 else Establish(sc, a, c, n).counter)
            && (v.deferred.Some? <==> c.outer.None? || MappingOf(names, c, st) == |st.mappings| || (!names.idle && target != ""))
            && (v.deferred.Some? ==>
                  && v.deferred.value.context == c
                  && v.deferred.value.subject == (if names.idle then names.subject else Or(target, names.subject))
                  && (!names.idle ==> v.deferred.value.listMapping == v.child.listMapping))
            && (!names.idle && target != "" ==> |st.mappings| <= v.child.listMapping)
            && (!names.idle && target == "" ==> v.child.listMapping == MappingOf(names, c, st))
  {
    hide ScopeOf, NamesOf, Establish, Steps, Blank, First;
    var sc, n := ScopeOf(rules, a, c), st.blankCounter;
    EstablishNames(sc, a, c, n);
    BlankIsNotNil(n + 1);
    var f := Establish(sc, a, c, n);
    var st1 := RecordSubject(a, f, UseVocabulary(a, st));
    var own := OwnMapping(f, c);
    var m, st2 := if own then |st1.mappings| else c.listMapping, if own then NewMapping(st1) else st1;
    StepsHandOn(sc, a, c, f, m, st2);
    StepsRecord(sc, a, c, f, m, st2);
    if IsRelation(a) && f.resource == "" { NothingCounted(sc, a, c, n); }
  }

  /** What waits for the next items of lists, one for each property, waits for the lists that these have. */
  predicate AwaitsLists(waiting: seq<Incomplete>, ps: seq<string>, st: State, m: nat)
    requires m < |st.mappings|
  {
    && |waiting| == |ps|
    && forall i | 0 <= i < |ps| ::
        waiting[i].Listed? && waiting[i].property == ps[i] && ListOf(st, m, ps[i]) == Some(waiting[i].list)
  }

  lemma {:induction false} AwaitItemsAre(sc: Scope, tokens: seq<string>, m: nat, st: State)
    requires m < |st.mappings| && Separate(st)
    ensures var (r, waiting) := AwaitItems(sc, tokens, m, st);
            AwaitsLists(waiting, Properties(sc, tokens), r, m)
    decreases |tokens|
  {
    hide Separate, ListOf, ListFor, AwaitsLists;
    if tokens == [] {
      NoneAwaited(st, m);
    } else {
      var q := sc.Property(tokens[0]);
      if q == "" {
        AwaitItemsAre(sc, tokens[1..], m, st);
        assert Properties(sc, tokens) == Properties(sc, tokens[1..]);
      } else {
        var (st1, l) := ListFor(st, m, q);
        ListForItems(st, m, q, q);
        AwaitItemsItems(sc, tokens[1..], m, st1, q);
        AwaitItemsAre(sc, tokens[1..], m, st1);
        var (r, more) := AwaitItems(sc, tokens[1..], m, st1);
        assert AwaitItems(sc, tokens, m, st) == (r, [Listed(q, l)] + more);
        OneMoreAwaited(q, l, more, Properties(sc, tokens[1..]), r, m);
      }
    }
  }

  lemma NoneAwaited(st: State, m: nat)
    requires m < |st.mappings|
    ensures AwaitsLists([], [], st, m)
  {
  }

  lemma OneMoreAwaited(q: string, l: nat, more: seq<Incomplete>, ps: seq<string>, st: State, m: nat)
    requires m < |st.mappings| && AwaitsLists(more, ps, st, m) && ListOf(st, m, q) == Some(l)
    ensures AwaitsLists([Listed(q, l)] + more, [q] + ps, st, m)
  {
    hide ListOf;
  }

  lemma {:induction false} PropertiesAreThere(sc: Scope, tokens: seq<string>)
    ensures forall p | p in Properties(sc, tokens) :: p != ""
    decreases |tokens|
  {
    if tokens != [] {
      PropertiesAreThere(sc, tokens[1..]);
    }
  }

  lemma StepsAwaitItems(sc: Scope, a: Attributes, c: Context, f: Found, m: nat, st: State)
    requires m < |st.mappings| && Separate(st) && f.resource == "" && a.inlist
    ensures var w := Steps(sc, a, c, f, m, st);
            var ps := Properties(sc, Tokens(a.rel));
            && |ps| <= |w.incomplete| && w.incomplete[|ps|..] == AwaitTriples(sc, Tokens(a.rev), false)
            && AwaitsLists(w.incomplete[..|ps|], ps, w.st, m)
  {
    hide Separate, ListOf, AwaitItems, AwaitTriples, Complete, AddTypes, AddProperties, Properties, Blank;
    var w := Await(sc, a, f, m, st);
    var st1 := if f.subject != "" && (a.rel.Some? || a.rev.Some?) then NewBlank(st) else st;
    SameItems(st, st1, m, "p");
    AwaitItemsAre(sc, Tokens(a.rel), m, st1);
    AwaitItemsItems(sc, Tokens(a.rel), m, st1, "p");
    var completed := if f.subject != "" && !f.skip then Complete(c.incomplete, c.subject, f.subject, w.st) else w.st;
    CompleteKeepsMappings(c.incomplete, c.subject, f.subject, w.st);
    CompleteItems(c.incomplete, c.subject, f.subject, w.st, m, "p");
    var types := if f.typed != "" then Tokens(a.typeof) else [];
    AddTypesKeepsStore(sc, types, f.typed, completed);
    var typed := AddTypes(sc, types, f.typed, completed);
    SameItems(completed, typed, m, "p");
    var ps := Properties(sc, Tokens(a.rel));
    PropertiesAreThere(sc, Tokens(a.rel));
    forall i | 0 <= i < |ps| ensures ListOf(AddProperties(sc, a, f, m, typed), m, ps[i]) == ListOf(w.st, m, ps[i]) {
      assert ps[i] in ps;
      AddPropertiesItems(sc, a, f, m, typed, ps[i]);
      SameSlots(w.st, typed, m, ps[i]);
    }
  }

  lemma SameSlots(st: State, r: State, m: nat, p: string)
    requires m < |st.mappings| && r.mappings == st.mappings
    ensures ListOf(r, m, p) == ListOf(st, m, p)
  {
  }

  /**
   Of a relation into a list without an object: the list of each property, in the element's mapping, waits for its
   next item.
   */
  lemma VisitAwaitsItems(rules: Rules, a: Attributes, c: Context, st: State)
    requires c.listMapping < |st.mappings| && Separate(st) && a.inlist
    requires var names := NamesOf(ScopeOf(rules, a, c), a, c, st.blankCounter); names.target == "" && !names.idle
    ensures var sc, v := ScopeOf(rules, a, c), VisitElement(rules, a, c, st);
            var m, ps := MappingOf(NamesOf(sc, a, c, st.blankCounter), c, st), Properties(sc, Tokens(a.rel));
            && m < |v.st.mappings| && |ps| <= |v.child.incomplete|
            && AwaitsLists(v.child.incomplete[..|ps|], ps, v.st, m)
            && v.child.incomplete[|ps|..] == AwaitTriples(sc, Tokens(a.rev), false)
  {
    hide ScopeOf, NamesOf, Establish, Steps, SubjectOf, AwaitTriples, Properties, Separate, AwaitsLists, ListOf;
    var sc, n := ScopeOf(rules, a, c), st.blankCounter;
    EstablishNames(sc, a, c, n);
    var f := Establish(sc, a, c, n);
    var st1 := RecordSubject(a, f, UseVocabulary(a, st));
    var own := OwnMapping(f, c);
    var m, st2 := if own then |st1.mappings| else c.listMapping, if own then NewMapping(st1) else st1;
    SameItems(st, st1, c.listMapping, "p");
    NewMappingItems(st1, "p");
    StepsAwaitItems(sc, a, c, f, m, st2);
    var w := Steps(sc, a, c, f, m, st2);
    var ps := Properties(sc, Tokens(a.rel));
    LaterMapping(w.incomplete[..|ps|], ps, w.st, m);
  }

  lemma LaterMapping(waiting: seq<Incomplete>, ps: seq<string>, st: State, m: nat)
    requires m < |st.mappings| && AwaitsLists(waiting, ps, st, m)
    ensures AwaitsLists(waiting, ps, NewMapping(st), m)
  {
  }

  // Below an element --------------------------------------------------------------------------------------------------

  /** A property, with its value in content or in the text, and nothing that names anything. */
  predicate OnlyProperty(a: Attributes) {
    && a.property.Some? && a.rel.None? && a.rev.None? && a.typeof.None? && a.datatypeName.None?
    && a.about.None? && a.resource.None? && a.href.None? && a.src.None? && !a.topmost && !a.headOrBody
  }

  /** Its content or its text, in the language in scope. */
  function Spoken(a: Attributes, c: Context): Value {
    Value(PLAIN_LITERAL, if a.content.Some? then a.content.value else a.text, LanguageOf(a, c))
  }

  /** What it says about a node: it completes what waits for this node, and has its properties. */
  function SpokenAbout(sc: Scope, a: Attributes, c: Context, about: string): seq<Triple> {
    VocabularyTriples(a)
    + (if about != "" then CompletedTriples(c.incomplete, c.subject, about) else [])
    + (if a.inlist then [] else Each(Properties(sc, Tokens(a.property)), about, Spoken(a, c)))
  }

  lemma OnlyPropertyNames(sc: Scope, a: Attributes, c: Context, n: nat)
    requires OnlyProperty(a)
    ensures NamesOf(sc, a, c, n) == Names(if c.parentObject == "" then "" else Around(a, c), "", "", false)
  {
    hide Blank;
    var names := SubjectNames(sc, a, c, n);
    var own := if IsPlainProperty(a) then [""] else ["", "", "", ""];
    var last := if c.parentObject == "" then [] else [Around(a, c)];
    assert names == own + last;
    FirstOfTwo(own, last);
    FirstOfFew("", "", "");
    FirstOfFew(Around(a, c), "", "");
    assert First(own) == "" by { FirstOfTwo([""], ["", "", ""]); assert own == [""] || own == [""] + ["", "", ""]; }
  }

  lemma OnlyPropertySpeaks(rules: Rules, a: Attributes, c: Context, st: State)
    requires c.listMapping < |st.mappings| && OnlyProperty(a)
    ensures var sc := ScopeOf(rules, a, c);
            var about := if c.parentObject == "" then "" else Around(a, c);
            && Says(rules, a, c, st, Spoken(a, c)) && NamesOf(sc, a, c, st.blankCounter) == Names(about, "", "", false)
            && VisitElement(rules, a, c, st).st.triples == st.triples + SpokenAbout(sc, a, c, about)
  {
    hide ScopeOf, NamesOf, VisitElement, CompletedTriples, Each, Properties, VocabularyTriples, FiledBy;
    var sc := ScopeOf(rules, a, c);
    OnlyPropertyNames(sc, a, c, st.blankCounter);
    assert sc.Resource(None) == "" && sc.Link(None) == "";
    NamedValueIs(sc, a);
    if a.content.Some? { ContentIsSaid(rules, a, c, st); } else { TextIsSaid(rules, a, c, st); }
  }

  /**
   An element that only has properties says them about the object of the element it is in, if that has one, and
   otherwise about its subject; where that is the document of the one, about the document of the other.
   */
  lemma ChildSpeaksOfObject(rules: Rules, a: Attributes, c: Context, st: State, b: Attributes, st': State)
    requires c.listMapping < |st.mappings| && VisitElement(rules, a, c, st).child.listMapping < |st'.mappings|
    requires OnlyProperty(b) && b.parentBase == a.base
    ensures var child := VisitElement(rules, a, c, st).child;
            var below := Below(a, c, NamesOf(ScopeOf(rules, a, c), a, c, st.blankCounter), st.blankCounter);
            var about := if below == "" then "" else if below == a.base then b.base else below;
            var v := Spoken(b, child);
            && Says(rules, b, child, st', v)
            && NamesOf(ScopeOf(rules, b, child), b, child, st'.blankCounter).subject == about
            && VisitElement(rules, b, child, st').st.triples
               == st'.triples + SpokenAbout(ScopeOf(rules, b, child), b, child, about)
  {
    hide ScopeOf, NamesOf, Below, VisitElement, Spoken, SpokenAbout, Says, OnlyProperty;
    VisitHandsOn(rules, a, c, st);
    OnlyPropertySpeaks(rules, b, VisitElement(rules, a, c, st).child, st');
  }

  lemma {:induction false} CompletedAppends(waiting: seq<Incomplete>, more: seq<Incomplete>, outer: string, subject: string)
    ensures CompletedTriples(waiting + more, outer, subject)
         == CompletedTriples(waiting, outer, subject) + CompletedTriples(more, outer, subject)
    decreases |waiting|
  {
    hide CompletedTriple;
    if waiting == [] {
      assert waiting + more == more;
    } else {
      assert (waiting + more)[0] == waiting[0] && (waiting + more)[1..] == waiting[1..] + more;
      CompletedAppends(waiting[1..], more, outer, subject);
    }
  }

  lemma {:induction false} AwaitedAreCompleted(sc: Scope, tokens: seq<string>, forward: bool, outer: string, subject: string)
    ensures var s, o := if forward then outer else subject, if forward then subject else outer;
            && CompletedTriples(AwaitTriples(sc, tokens, forward), outer, subject)
            == Each(Properties(sc, tokens), s, Value(OBJECT, o, ""))
    decreases |tokens|
  {
    if tokens != [] {
      var p := sc.Property(tokens[0]);
      var more := AwaitTriples(sc, tokens[1..], forward);
      var s, o := if forward then outer else subject, if forward then subject else outer;
      AwaitedAreCompleted(sc, tokens[1..], forward, outer, subject);
      hide CompletedTriples, Properties, AwaitTriples;
      if p == "" {
        assert AwaitTriples(sc, tokens, forward) == more by { NextAwaited(sc, tokens, forward); }
      } else {
        var w := if forward then Forward(p) else Reverse(p);
        assert AwaitTriples(sc, tokens, forward) == [w] + more by { NextAwaited(sc, tokens, forward); }
        OneCompleted(w, more, outer, subject);
        OneMoreEach(p, Properties(sc, tokens[1..]), s, Value(OBJECT, o, ""));
      }
      NextProperty(sc, tokens);
    }
  }

  lemma NextAwaited(sc: Scope, tokens: seq<string>, forward: bool)
    requires tokens != []
    ensures var p, more := sc.Property(tokens[0]), AwaitTriples(sc, tokens[1..], forward);
            AwaitTriples(sc, tokens, forward) == (if p == "" then more else [if forward then Forward(p) else Reverse(p)] + more)
  {
  }

  lemma NextProperty(sc: Scope, tokens: seq<string>)
    requires tokens != []
    ensures var p, more := sc.Property(tokens[0]), Properties(sc, tokens[1..]);
            Properties(sc, tokens) == (if p == "" then more else [p] + more)
  {
  }

  lemma OneCompleted(w: Incomplete, more: seq<Incomplete>, outer: string, subject: string)
    requires !w.Listed?
    ensures CompletedTriples([w] + more, outer, subject)
         == [if w.Forward? then Triple(outer, w.property, Value(OBJECT, subject, ""))
             else Triple(subject, w.property, Value(OBJECT, outer, ""))] + CompletedTriples(more, outer, subject)
  {
    assert ([w] + more)[1..] == more;
  }

  lemma OneMoreEach(p: string, ps: seq<string>, subject: string, obj: Value)
    ensures Each([p] + ps, subject, obj) == [Triple(subject, p, obj)] + Each(ps, subject, obj)
  {
  }

  lemma LeftOpenIsCompleted(sc: Scope, a: Attributes, outer: string, subject: string)
    ensures CompletedTriples(LeftOpen(sc, a), outer, subject)
         == Each(Properties(sc, Tokens(a.rel)), outer, Value(OBJECT, subject, ""))
            + Each(Properties(sc, Tokens(a.rev)), subject, Value(OBJECT, outer, ""))
  {
    hide LeftOpen, AwaitTriples, CompletedTriples, Each, Properties;
    LeftOpenIs(sc, a);
    AwaitedAreCompleted(sc, Tokens(a.rel), true, outer, subject);
    AwaitedAreCompleted(sc, Tokens(a.rev), false, outer, subject);
    CompletedAppends(AwaitTriples(sc, Tokens(a.rel), true), AwaitTriples(sc, Tokens(a.rev), false), outer, subject);
  }

  /**
   Below a relation without an object, an element that only has properties says them about a new blank node,
   after the triples that relate this node to the subject of the relation.
   */
  lemma ChildOfHangingRelation(rules: Rules, a: Attributes, c: Context, st: State, b: Attributes, st': State)
    requires c.listMapping < |st.mappings| && VisitElement(rules, a, c, st).child.listMapping < |st'.mappings|
    requires OnlyProperty(b) && !b.inlist && b.parentBase == a.base && b.vocab.None? && IsRelation(a) && !a.inlist
    requires var names := NamesOf(ScopeOf(rules, a, c), a, c, st.blankCounter); names.target == "" && names.subject != ""
    requires a.base != Blank(st.blankCounter + 1)
    ensures var sc, child, subject := ScopeOf(rules, a, c), VisitElement(rules, a, c, st).child,
                                      NamesOf(ScopeOf(rules, a, c), a, c, st.blankCounter).subject;
            var node, v := Blank(st.blankCounter + 1), Spoken(b, child);
            && VisitElement(rules, b, child, st').st.triples
               == st'.triples
                  + (Each(Properties(sc, Tokens(a.rel)), subject, Value(OBJECT, node, ""))
                     + Each(Properties(sc, Tokens(a.rev)), node, Value(OBJECT, subject, ""))
                     + Each(Properties(ScopeOf(rules, b, child), Tokens(b.property)), node, v))
  {
    hide ScopeOf, VisitElement, NamesOf, Below, Blank, LeftOpen, Spoken, SpokenAbout, Each, Properties, Says, OnlyProperty;
    var sc, n, child := ScopeOf(rules, a, c), st.blankCounter, VisitElement(rules, a, c, st).child;
    BelowHanging(sc, a, c, n);
    VisitHandsOn(rules, a, c, st);
    ChildSpeaksOfObject(rules, a, c, st, b, st');
    SpokenBelowHanging(sc, a, ScopeOf(rules, b, child), b, child, Blank(n + 1));
  }

  lemma BelowHanging(sc: Scope, a: Attributes, c: Context, n: nat)
    requires var names := NamesOf(sc, a, c, n); IsRelation(a) && names.target == "" && names.subject != ""
    ensures var names := NamesOf(sc, a, c, n); !names.idle && Below(a, c, names, n) == Blank(n + 1) != ""
  {
    hide SubjectNames, ObjectNames, TypedNames, Blank;
    BlankIsNotNil(n + 1);
    FirstOfFew(Blank(n + 1), NamesOf(sc, a, c, n).subject, c.subject);
  }

  lemma SpokenBelowHanging(sc: Scope, a: Attributes, scb: Scope, b: Attributes, child: Context, node: string)
    requires child.incomplete == LeftOpen(sc, a) && b.vocab.None? && !b.inlist && node != ""
    ensures SpokenAbout(scb, b, child, node)
         == Each(Properties(sc, Tokens(a.rel)), child.subject, Value(OBJECT, node, ""))
            + Each(Properties(sc, Tokens(a.rev)), node, Value(OBJECT, child.subject, ""))
            + Each(Properties(scb, Tokens(b.property)), node, Spoken(b, child))
  {
    hide LeftOpen, Each, Properties, Spoken, CompletedTriples;
    LeftOpenIsCompleted(sc, a, child.subject, node);
  }

  lemma ExtendsFinish(d: Deferred, st: State)
    requires d.listMapping < |st.mappings|
    ensures st.triples <= Finish(d, st).triples && Finish(d, st).mappings == st.mappings && Finish(d, st).lists == st.lists
  {
    hide Entries, EntriesTriples, Named;
  }

  /** In a document: a relation to a resource, and what the element inside says about this resource. */
  lemma ObjectIsDescribed(rules: Rules, a: Attributes, b: Attributes, c: Context, st: State)
    requires c.listMapping < |st.mappings| && IsRelation(a) && !a.inlist
    requires OnlyProperty(b) && !b.inlist && b.parentBase == a.base
    requires ScopeOf(rules, a, c).Resource(a.resource) !in ["", a.base]
    ensures var r := Traverse(rules, Tree(a, [Tree(b, [])]), c, st).triples;
            var sc, child := ScopeOf(rules, a, c), VisitElement(rules, a, c, st).child;
            var scb := ScopeOf(rules, b, child);
            var subject, target := NamesOf(sc, a, c, st.blankCounter).subject, sc.Resource(a.resource);
            var v := Spoken(b, child);
            && (forall p | p in Properties(sc, Tokens(a.rel)) :: Triple(subject, p, Value(OBJECT, target, "")) in r)
            && (forall p | p in Properties(sc, Tokens(a.rev)) :: Triple(target, p, Value(OBJECT, subject, "")) in r)
            && (forall p | p in Properties(scb, Tokens(b.property)) :: Triple(target, p, v) in r)
  {
    hide ScopeOf, VisitElement, CompletedTriples, VocabularyTriples, Each, Properties, NamesOf, Traverse, Says, Below;
    var sc, n := ScopeOf(rules, a, c), st.blankCounter;
    var v := VisitElement(rules, a, c, st);
    var names := NamesOf(sc, a, c, n);
    var resource := sc.Resource(a.resource);
    RelationIsSaid(rules, a, c, st);
    BelowResource(sc, a, c, n);
    ChildSpeaksOfObject(rules, a, c, st, b, v.st);
    var w := VisitElement(rules, b, v.child, v.st);
    var said := Each(Properties(ScopeOf(rules, b, v.child), Tokens(b.property)), resource,
                     Spoken(b, v.child));
    EachHas(Properties(ScopeOf(rules, b, v.child), Tokens(b.property)), resource,
            Spoken(b, v.child));
    assert v.st.triples <= w.st.triples;
    assert forall t | t in said :: t in w.st.triples;
    TraverseOfTwo(rules, a, b, c, st);
  }

  lemma BelowResource(sc: Scope, a: Attributes, c: Context, n: nat)
    requires IsRelation(a) && sc.Resource(a.resource) != ""
    ensures Below(a, c, NamesOf(sc, a, c, n), n) == sc.Resource(a.resource)
  {
    hide SubjectNames, TypedNames, ObjectNames, Blank;
    var names := NamesOf(sc, a, c, n);
    ResourceIsTarget(sc, a, names.subject, n);
    FirstOfFew(names.target, names.subject, c.subject);
  }

  lemma RelationIsSaid(rules: Rules, a: Attributes, c: Context, st: State)
    requires c.listMapping < |st.mappings| && IsRelation(a) && !a.inlist && ScopeOf(rules, a, c).Resource(a.resource) != ""
    ensures var sc, r := ScopeOf(rules, a, c), VisitElement(rules, a, c, st).st.triples;
            var subject, target := NamesOf(sc, a, c, st.blankCounter).subject, sc.Resource(a.resource);
            && (forall p | p in Properties(sc, Tokens(a.rel)) :: Triple(subject, p, Value(OBJECT, target, "")) in r)
            && (forall p | p in Properties(sc, Tokens(a.rev)) :: Triple(target, p, Value(OBJECT, subject, "")) in r)
  {
    hide ScopeOf, VisitElement, CompletedTriples, TypeTriples, VocabularyTriples, Each, Properties, PropertyValue,
      SubjectNames, ObjectNames, TypedNames;
    var sc := ScopeOf(rules, a, c);
    var names := NamesOf(sc, a, c, st.blankCounter);
    ResourceIsTarget(sc, a, names.subject, st.blankCounter);
    VisitAdds(rules, a, c, st);
    EachHas(Properties(sc, Tokens(a.rel)), names.subject, Value(OBJECT, names.target, ""));
    EachHas(Properties(sc, Tokens(a.rev)), names.target, Value(OBJECT, names.subject, ""));
  }

  lemma ResourceIsTarget(sc: Scope, a: Attributes, subject: string, n: nat)
    requires IsRelation(a) && sc.Resource(a.resource) != ""
    ensures First(ObjectNames(sc, a, subject, n)) == sc.Resource(a.resource)
  {
  }

  lemma EachHas(ps: seq<string>, subject: string, obj: Value)
    ensures forall p | p in ps :: Triple(subject, p, obj) in Each(ps, subject, obj)
  {
    forall p | p in ps ensures Triple(subject, p, obj) in Each(ps, subject, obj) {
      var i :| 0 <= i < |ps| && ps[i] == p;
      assert Each(ps, subject, obj)[i] == Triple(subject, p, obj);
    }
  }

  /** What two visits add, one of an element and one of its only child, stays. */
  lemma TraverseOfTwo(rules: Rules, a: Attributes, b: Attributes, c: Context, st: State)
    requires c.listMapping < |st.mappings|
    ensures var v := VisitElement(rules, a, c, st);
            VisitElement(rules, b, v.child, v.st).st.triples <= Traverse(rules, Tree(a, [Tree(b, [])]), c, st).triples
  {
    hide VisitElement, Finish;
    var v := VisitElement(rules, a, c, st);
    var w := VisitElement(rules, b, v.child, v.st);
    var t := Tree(b, []);
    assert TraverseAll(rules, [], w.child, w.st) == w.st;
    var r := Traverse(rules, t, v.child, v.st);
    assert r == (if w.deferred.Some? then Finish(w.deferred.value, w.st) else w.st);
    if w.deferred.Some? { ExtendsFinish(w.deferred.value, w.st); }
    assert [t][1..] == [];
    assert TraverseAll(rules, [], v.child, r) == r;
    assert TraverseAll(rules, [t], v.child, v.st) == r;
    if v.deferred.Some? { ExtendsFinish(v.deferred.value, r); }
  }

  // What a run keeps --------------------------------------------------------------------------------------------------

  /** The lists of every mapping stay different ones over a whole traversal. */
  lemma {:induction false} TraverseKeepsSeparate(rules: Rules, t: Tree, c: Context, st: State, low: nat)
    requires RdfaLists.Sound(st, low) && RdfaLists.LiveContext(st, c) && Separate(st)
    ensures Separate(Traverse(rules, t, c, st))
    decreases t, 0
  {
    hide RdfaLists.Sound, RdfaLists.Keeps, RdfaLists.WellFormed, VisitElement, Separate, ItemsOf, FiledBy, PropertyValue,
      NamesOf, ListOf, Finish;
    RdfaLists.SoundIsWellFormed(st, low);
    RdfaLists.VisitIsQuiet(rules, t.attributes, c, st);
    var v := VisitElement(rules, t.attributes, c, st);
    RdfaLists.QuietIsSound(st, v.st, low);
    VisitFiles(rules, t.attributes, c, st, "p");
    TraverseAllKeepsSeparate(rules, t.children, v.child, v.st, low);
    if v.deferred.Some? {
      var st' := TraverseAll(rules, t.children, v.child, v.st);
      ExtendsFinish(v.deferred.value, st');
      SameItems(st', Finish(v.deferred.value, st'), 0, "p");
    }
  }

  lemma {:induction false} TraverseAllKeepsSeparate(rules: Rules, ts: seq<Tree>, c: Context, st: State, low: nat)
    requires RdfaLists.Sound(st, low) && RdfaLists.LiveContext(st, c) && c.outer.Some? && Separate(st)
    ensures Separate(TraverseAll(rules, ts, c, st))
    decreases ts, 1
  {
    hide RdfaLists.Sound, Traverse, Separate;
    if ts != [] {
      TraverseKeepsSeparate(rules, ts[0], c, st, low);
      RdfaLists.TraverseIsSound(rules, ts[0], c, st, low);
      var st' := Traverse(rules, ts[0], c, st);
      RdfaLists.LiveAfter(st, st', c);
      TraverseAllKeepsSeparate(rules, ts[1..], c, st', low);
    }
  }
}
