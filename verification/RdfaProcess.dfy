/**
 The RDFa parser as it runs: one queue, used as a stack, of elements to visit and list mappings to print.
 The loop is proved to compute the recursive traversal of RdfaSteps.
 */
module RdfaProcess {
  import opened Helpers

  import opened RdfaStore
  import opened RdfaSteps

  datatype Item = Element(tree: Tree, context: Context) | Lists(deferred: Deferred)

  // What a queue still has to do ------------------------------------------------------------------------------------

  function Mapping(item: Item): nat {
    if item.Element? then item.context.listMapping else item.deferred.listMapping
  }

  predicate Ready(queue: seq<Item>, st: State) {
    forall item | item in queue :: Mapping(item) < |st.mappings|
  }

  /** One item with everything below it. */
  function RunItem(rules: Rules, item: Item, st: State): (r: State)
    requires Mapping(item) < |st.mappings|
    ensures |st.mappings| <= |r.mappings|
  {
    if item.Element? then Traverse(rules, item.tree, item.context, st) else Finish(item.deferred, st)
  }

  function Run(rules: Rules, queue: seq<Item>, st: State): (r: State)
    requires Ready(queue, st)
  {
    if queue == [] then st else Run(rules, queue[1..], RunItem(rules, queue[0], st))
  }

  function ElementItems(ts: seq<Tree>, c: Context): (r: seq<Item>)
    ensures |r| == |ts| && forall item | item in r :: item.Element? && item.context == c
  {
    if ts == [] then [] else [Element(ts[0], c)] + ElementItems(ts[1..], c)
  }

  /** Running the children first and then the rest is running the children's traversal and then the rest. */
  lemma {:induction false} RunChildren(rules: Rules, ts: seq<Tree>, c: Context, rest: seq<Item>, st: State)
    requires c.listMapping < |st.mappings| && Ready(rest, st)
    ensures Ready(ElementItems(ts, c) + rest, st) && Ready(rest, TraverseAll(rules, ts, c, st))
    ensures Run(rules, ElementItems(ts, c) + rest, st) == Run(rules, rest, TraverseAll(rules, ts, c, st))
    decreases |ts|
  {
    hide Traverse;
    if ts == [] {
      assert ElementItems(ts, c) + rest == rest;
    } else {
      var queue := ElementItems(ts, c) + rest;
      assert queue[0] == Element(ts[0], c) && queue[1..] == ElementItems(ts[1..], c) + rest;
      RunChildren(rules, ts[1..], c, rest, Traverse(rules, ts[0], c, st));
    }
  }

  /** The items an element leaves on the queue in its place. */
  function Below(t: Tree, v: Visited): seq<Item> {
    ElementItems(t.children, v.child) + if v.deferred.Some? then [Lists(v.deferred.value)] else []
  }

  lemma RunElement(rules: Rules, t: Tree, c: Context, rest: seq<Item>, st: State)
    requires c.listMapping < |st.mappings| && Ready(rest, st)
    ensures var v := VisitElement(rules, t.attributes, c, st);
            && Ready(Below(t, v) + rest, v.st) && Ready([Element(t, c)] + rest, st)
            && Run(rules, Below(t, v) + rest, v.st) == Run(rules, [Element(t, c)] + rest, st)
  {
    hide VisitElement, Finish, ElementItems;
    var v := VisitElement(rules, t.attributes, c, st);
    var last := if v.deferred.Some? then [Lists(v.deferred.value)] else [];
    RunChildren(rules, t.children, v.child, last + rest, v.st);
    assert Below(t, v) + rest == ElementItems(t.children, v.child) + (last + rest);
    var st' := TraverseAll(rules, t.children, v.child, v.st);
    assert ([Element(t, c)] + rest)[1..] == rest;
    if v.deferred.Some? {
      assert (last + rest)[1..] == rest;
    } else {
      assert last + rest == rest;
    }
  }

  // Termination -----------------------------------------------------------------------------------------------------

  function Weight(t: Tree): nat
    decreases t, 0
  {
    2 + WeightAll(t.children)
  }

  function WeightAll(ts: seq<Tree>): nat
    decreases ts, 1
  {
    if ts == [] then 0 else Weight(ts[0]) + WeightAll(ts[1..])
  }

  function Work(queue: seq<Item>): nat {
    if queue == [] then 0
    else (if queue[0].Element? then Weight(queue[0].tree) else 1) + Work(queue[1..])
  }

  lemma {:induction false} WorkOfBoth(a: seq<Item>, b: seq<Item>)
    ensures Work(a + b) == Work(a) + Work(b)
    decreases |a|
  {
    if a == [] {
      assert a + b == b;
    } else {
      assert (a + b)[1..] == a[1..] + b;
      WorkOfBoth(a[1..], b);
    }
  }

  lemma {:induction false} WorkOfElements(ts: seq<Tree>, c: Context)
    ensures Work(ElementItems(ts, c)) == WeightAll(ts)
    decreases |ts|
  {
    if ts != [] {
      assert ElementItems(ts, c)[1..] == ElementItems(ts[1..], c);
      WorkOfElements(ts[1..], c);
    }
  }

  lemma WorkBelow(t: Tree, c: Context, v: Visited, rest: seq<Item>)
    ensures Work(Below(t, v) + rest) < Work([Element(t, c)] + rest)
  {
    var last := if v.deferred.Some? then [Lists(v.deferred.value)] else [];
    WorkOfBoth(Below(t, v), rest);
    WorkOfBoth(ElementItems(t.children, v.child), last);
    WorkOfElements(t.children, v.child);
    assert ([Element(t, c)] + rest)[1..] == rest;
  }

  // Printing lists --------------------------------------------------------------------------------------------------

  lemma EntriesStep(lists: seq<List>, slots: seq<Slot>, entries: seq<Entry>, i: nat, first: nat, subject: string)
    requires i < |slots| == |entries| && Entries(lists, slots[i..], first) == entries[i..]
    ensures var items := if slots[i].list < |lists| then lists[slots[i].list].items else [];
            && entries[i] == Entry(slots[i].property, first, items)
            && Entries(lists, slots[i + 1..], first + |items|) == entries[i + 1..]
            && Named(entries[i..]) == |items| + Named(entries[i + 1..])
            && EntriesTriples(subject, entries[i..]) == EntryTriples(subject, entries[i]) + EntriesTriples(subject, entries[i + 1..])
  {
    hide EntryTriples;
    assert slots[i..][1..] == slots[i + 1..] && entries[i..][1..] == entries[i + 1..];
    assert entries[i..][0] == entries[i];
  }

  lemma NoEntries(subject: string)
    ensures EntriesTriples(subject, []) == [] && Named([]) == 0
  {
  }

  lemma NoCells(e: Entry)
    ensures Node(e, |e.items|) == NIL && (e.items == [] ==> Cells(e, 0) == [])
  {
  }

  // Attributes that are absent ----------------------------------------------------------------------------------------

  lemma NoTokens(sc: Scope, m: nat, subject: string, v: Value, st: State)
    requires m < |st.mappings|
    ensures AddTriples(sc, [], subject, v, st) == st && AddToLists(sc, [], m, v, st) == st
  {
  }

  lemma NoTypes(sc: Scope, subject: string, st: State)
    ensures AddTypes(sc, [], subject, st) == st
  {
  }

  lemma NothingAwaits(sc: Scope, m: nat, forward: bool, st: State)
    requires m < |st.mappings|
    ensures AwaitItems(sc, [], m, st) == (st, []) && AwaitTriples(sc, [], forward) == []
  {
  }

  lemma AwaitStep(sc: Scope, tokens: seq<string>, i: nat, forward: bool, before: seq<Incomplete>)
    requires i < |tokens|
    ensures var p := sc.Property(tokens[i]);
            var before' := if p == "" then before else before + [if forward then Forward(p) else Reverse(p)];
            before + AwaitTriples(sc, tokens[i..], forward) == before' + AwaitTriples(sc, tokens[i + 1..], forward)
  {
    assert tokens[i..][1..] == tokens[i + 1..];
  }

  class RDFaParser {
    const rules: Rules
    var blankCounter: nat
    var triples: seq<Triple>
    var mappings: seq<seq<Slot>>
    var lists: seq<List>
    var subjects: seq<(Attributes, string)>
    ghost var printed: seq<Emission>

    constructor (rules: Rules)
      ensures this.rules == rules && Now() == State(0, [], [], [], [], [])
    {
      this.rules := rules;
      blankCounter, triples, mappings, lists, subjects, printed := 0, [], [], [], [], [];
    }

    ghost function Now(): State
      reads this
    {
      State(blankCounter, triples, mappings, lists, subjects, printed)
    }

    method AddTriple(subject: string, property: string, obj: Value)
      modifies this`triples
      ensures Now() == RdfaStore.AddTriple(old(Now()), subject, property, obj)
    {
      triples := triples + [Triple(subject, property, obj)];
    }

    method NewBlankNode() returns (name: string)
      modifies this`blankCounter
      ensures Now() == NewBlank(old(Now())) && name == Blank(old(blankCounter) + 1)
    {
      blankCounter := blankCounter + 1;
      name := Blank(blankCounter);
    }

    /** The list of a property, created when the mapping has none. */
    method ListOf(m: nat, property: string) returns (l: nat)
      requires m < |mappings|
      modifies this`mappings, this`lists
      ensures (Now(), l) == ListFor(old(Now()), m, property) && |mappings| == old(|mappings|)
    {
      var i := Find(mappings[m], property);
      if i < |mappings[m]| {
        return mappings[m][i].list;
      }
      l := |lists|;
      lists := lists + [List(m, [])];
      mappings := mappings[m := mappings[m] + [Slot(property, l)]];
    }

    method PushItem(l: nat, v: Value)
      modifies this`lists
      ensures Now() == PushOn(old(Now()), l, v)
    {
      if l < |lists| {
        lists := lists[l := lists[l].(items := lists[l].items + [v])];
      }
    }

    // The loops over the tokens of an attribute ---------------------------------------------------------------------

    method EmitTriples(sc: Scope, tokens: seq<string>, subject: string, obj: Value)
      modifies this`triples
      ensures Now() == AddTriples(sc, tokens, subject, obj, old(Now()))
    {
      var i := 0;
      while i < |tokens|
        invariant i <= |tokens|
        invariant AddTriples(sc, tokens[i..], subject, obj, Now()) == AddTriples(sc, tokens, subject, obj, old(Now()))
      {
        var p := sc.Property(tokens[i]);
        assert tokens[i..][1..] == tokens[i + 1..];
        if p != "" {
          AddTriple(subject, p, obj);
        }
        i := i + 1;
      }
    }

    method EmitItems(sc: Scope, tokens: seq<string>, m: nat, v: Value)
      requires m < |mappings|
      modifies this`mappings, this`lists
      ensures Now() == AddToLists(sc, tokens, m, v, old(Now()))
      ensures |mappings| == old(|mappings|)
    {
      hide ListFor, PushOn;
      var i := 0;
      while i < |tokens|
        invariant i <= |tokens| && |mappings| == old(|mappings|)
        invariant AddToLists(sc, tokens[i..], m, v, Now()) == AddToLists(sc, tokens, m, v, old(Now()))
      {
        var p := sc.Property(tokens[i]);
        assert tokens[i..][1..] == tokens[i + 1..];
        if p != "" {
          var l := ListOf(m, p);
          PushItem(l, v);
        }
        i := i + 1;
      }
    }

    method EmitTypes(sc: Scope, tokens: seq<string>, subject: string)
      modifies this`triples
      ensures Now() == AddTypes(sc, tokens, subject, old(Now()))
    {
      var i := 0;
      while i < |tokens|
        invariant i <= |tokens|
        invariant AddTypes(sc, tokens[i..], subject, Now()) == AddTypes(sc, tokens, subject, old(Now()))
      {
        var t := sc.Term(tokens[i]);
        assert tokens[i..][1..] == tokens[i + 1..];
        if t != "" {
          AddTriple(subject, TYPE, Resource(t));
        }
        i := i + 1;
      }
    }

    method AwaitListItems(sc: Scope, tokens: seq<string>, m: nat) returns (incomplete: seq<Incomplete>)
      requires m < |mappings|
      modifies this`mappings, this`lists
      ensures (Now(), incomplete) == AwaitItems(sc, tokens, m, old(Now())) && |mappings| == old(|mappings|)
    {
      hide ListFor;
      incomplete := [];
      var i := 0;
      while i < |tokens|
        invariant i <= |tokens| && |mappings| == old(|mappings|)
        invariant AwaitItems(sc, tokens[i..], m, Now()).0 == AwaitItems(sc, tokens, m, old(Now())).0
        invariant incomplete + AwaitItems(sc, tokens[i..], m, Now()).1 == AwaitItems(sc, tokens, m, old(Now())).1
      {
        var p := sc.Property(tokens[i]);
        assert tokens[i..][1..] == tokens[i + 1..];
        if p != "" {
          var l := ListOf(m, p);
          incomplete := incomplete + [Listed(p, l)];
        }
        i := i + 1;
      }
      NothingAwaits(sc, m, true, Now());
      assert tokens[i..] == [] && incomplete + [] == incomplete;
    }

    method AwaitObjects(sc: Scope, tokens: seq<string>, forward: bool) returns (incomplete: seq<Incomplete>)
      ensures incomplete == AwaitTriples(sc, tokens, forward)
    {
      incomplete := [];
      var i := 0;
      while i < |tokens|
        invariant i <= |tokens|
        invariant incomplete + AwaitTriples(sc, tokens[i..], forward) == AwaitTriples(sc, tokens, forward)
      {
        hide AwaitTriples;
        var p := sc.Property(tokens[i]);
        AwaitStep(sc, tokens, i, forward, incomplete);
        if p != "" {
          incomplete := incomplete + [if forward then Forward(p) else Reverse(p)];
        }
        i := i + 1;
      }
    }

    method CompleteIncomplete(waiting: seq<Incomplete>, outer: string, subject: string)
      modifies this`triples, this`lists
      ensures Now() == Complete(waiting, outer, subject, old(Now()))
    {
      var i := 0;
      while i < |waiting|
        invariant i <= |waiting|
        decreases |waiting| - i
        invariant Complete(waiting[i..], outer, subject, Now()) == Complete(waiting, outer, subject, old(Now()))
      {
        assert waiting[i..][1..] == waiting[i + 1..];
        match waiting[i] {
          case Listed(_, l) => PushItem(l, Resource(subject));
          case Forward(p) => AddTriple(outer, p, Resource(subject));
          case Reverse(p) => AddTriple(subject, p, Resource(outer));
        }
        i := i + 1;
      }
    }

    // Step 14 -------------------------------------------------------------------------------------------------------

    /** Names the nodes of one list, links them, and points the property at the first. */
    method GenerateList(subject: string, property: string, items: seq<Value>)
      modifies this`blankCounter, this`triples
      ensures var e := Entry(property, old(blankCounter), items);
              && blankCounter == old(blankCounter) + |items|
              && triples == old(triples) + EntryTriples(subject, e)
    {
      hide Cells;
      ghost var e := Entry(property, blankCounter, items);
      if |items| == 0 {
        AddTriple(subject, property, Resource(NIL));
        NoCells(e);
        return;
      }
      var bnodes: seq<string> := [];
      var i := 0;
      while i < |items|
        invariant i <= |items| == |e.items| && |bnodes| == i && blankCounter == e.first + i
        invariant forall k | 0 <= k < i :: bnodes[k] == Node(e, k)
        invariant triples == old(triples)
      {
        var name := NewBlankNode();
        bnodes := bnodes + [name];
        i := i + 1;
      }
      LinkNodes(e, bnodes, items);
      AddTriple(subject, property, Resource(bnodes[0]));
    }

    method LinkNodes(ghost e: Entry, bnodes: seq<string>, items: seq<Value>)
      requires items == e.items && |bnodes| == |items|
      requires forall k | 0 <= k < |bnodes| :: bnodes[k] == Node(e, k)
      modifies this`triples
      ensures triples == old(triples) + Cells(e, 0)
    {
      hide Node;
      var i := 0;
      assert |bnodes| < |items| + 1 && Node(e, |items|) == NIL by { NoCells(e); }
      while i < |bnodes|
        invariant i <= |bnodes|
        invariant triples + Cells(e, i) == old(triples) + Cells(e, 0)
      {
        ghost var before := triples;
        var next := if i + 1 < |bnodes| then bnodes[i + 1] else NIL;
        AddTriple(bnodes[i], FIRST, items[i]);
        AddTriple(bnodes[i], REST, Resource(next));
        assert triples == before + [Triple(Node(e, i), FIRST, items[i]), Triple(Node(e, i), REST, Resource(Node(e, i + 1)))];
        i := i + 1;
      }
    }

    method GenerateLists(subject: string, m: nat)
      requires m < |mappings|
      modifies this`blankCounter, this`triples, this`printed
      ensures Now() == Print(old(Now()), subject, m)
    {
      hide EntryTriples, Entries, EntriesTriples, Named;
      ghost var entries := Entries(lists, mappings[m], blankCounter);
      var slots := mappings[m];
      var i := 0;
      assert slots[0..] == slots && entries[0..] == entries;
      while i < |slots|
        invariant i <= |slots| == |entries| && printed == old(printed)
        invariant Entries(lists, slots[i..], blankCounter) == entries[i..]
        invariant blankCounter + Named(entries[i..]) == old(blankCounter) + Named(entries)
        invariant triples + EntriesTriples(subject, entries[i..]) == old(triples) + EntriesTriples(subject, entries)
      {
        ghost var before := triples;
        EntriesStep(lists, slots, entries, i, blankCounter, subject);
        var items := if slots[i].list < |lists| then lists[slots[i].list].items else [];
        GenerateList(subject, slots[i].property, items);
        assert before + (EntryTriples(subject, entries[i]) + EntriesTriples(subject, entries[i + 1..]))
            == triples + EntriesTriples(subject, entries[i + 1..]);
        i := i + 1;
      }
      assert entries[i..] == [];
      NoEntries(subject);
      assert triples + [] == triples;
      printed := printed + [Emission(m, subject, entries)];
    }

    // One element ---------------------------------------------------------------------------------------------------

    method EmitRelations(sc: Scope, a: Attributes, f: Found, m: nat)
      requires m < |mappings|
      modifies this`triples, this`mappings, this`lists
      ensures Now() == Relate(sc, a, f, m, old(Now())) && |mappings| == old(|mappings|)
    {
      hide AddToLists, AddTriples;
      if a.rel.Some? && a.inlist {
        EmitItems(sc, a.rel.value, m, Resource(f.resource));
      } else if a.rel.Some? {
        EmitTriples(sc, a.rel.value, f.subject, Resource(f.resource));
      } else {
        NoTokens(sc, m, f.subject, Resource(f.resource), old(Now()));
      }
      if a.rev.Some? {
        EmitTriples(sc, a.rev.value, f.resource, Resource(f.subject));
      } else {
        NoTokens(sc, m, f.resource, Resource(f.subject), Now());
      }
    }

    method AwaitRelations(sc: Scope, a: Attributes, f: Found, m: nat) returns (resource: string, incomplete: seq<Incomplete>)
      requires m < |mappings|
      modifies this`blankCounter, this`mappings, this`lists
      ensures Awaited(Now(), resource, incomplete) == Await(sc, a, f, m, old(Now())) && |mappings| == old(|mappings|)
    {
      hide AwaitItems, AwaitTriples;
      resource := "";
      incomplete := [];
      if f.subject != "" && (a.rel.Some? || a.rev.Some?) {
        resource := NewBlankNode();
      }
      ghost var st1 := Now();
      if a.rel.Some? && a.inlist {
        incomplete := AwaitListItems(sc, a.rel.value, m);
      } else if a.rel.Some? {
        incomplete := AwaitObjects(sc, a.rel.value, true);
      } else {
        NothingAwaits(sc, m, true, st1);
      }
      if a.rev.Some? {
        var more := AwaitObjects(sc, a.rev.value, false);
        incomplete := incomplete + more;
      } else {
        NothingAwaits(sc, m, false, st1);
      }
    }

    method EmitProperties(sc: Scope, a: Attributes, f: Found, m: nat)
      requires m < |mappings|
      modifies this`triples, this`mappings, this`lists
      ensures Now() == AddProperties(sc, a, f, m, old(Now())) && |mappings| == old(|mappings|)
    {
      hide AddToLists, AddTriples, PropertyValue;
      if a.property.Some? {
        var v := PropertyValue(sc, a, f.typed);
        if a.inlist {
          EmitItems(sc, a.property.value, m, v);
        } else {
          EmitTriples(sc, a.property.value, f.subject, v);
        }
      } else {
        NoTokens(sc, m, f.subject, PropertyValue(sc, a, f.typed), Now());
      }
    }

    method EmitSteps(sc: Scope, a: Attributes, c: Context, f: Found, m: nat)
      returns (resource: string, incomplete: seq<Incomplete>)
      requires m < |mappings|
      modifies this`blankCounter, this`triples, this`mappings, this`lists
      ensures Awaited(Now(), resource, incomplete) == Steps(sc, a, c, f, m, old(Now())) && |mappings| == old(|mappings|)
    {
      hide Relate, Await, Complete, AddTypes, AddProperties;
      resource, incomplete := f.resource, [];
      if f.resource != "" {
        EmitRelations(sc, a, f, m);
      } else {
        resource, incomplete := AwaitRelations(sc, a, f, m);
      }
      CompleteKeepsMappings(c.incomplete, c.subject, f.subject, Now());
      if f.subject != "" && !f.skip {
        CompleteIncomplete(c.incomplete, c.subject, f.subject);
      }
      ghost var types := if f.typed != "" then Tokens(a.typeof) else [];
      AddTypesKeepsStore(sc, types, f.typed, Now());
      if f.typed != "" && a.typeof.Some? {
        EmitTypes(sc, a.typeof.value, f.typed);
      } else {
        NoTypes(sc, f.typed, Now());
      }
      EmitProperties(sc, a, f, m);
    }

    /** Steps 2 to 6: the vocabulary, and the element's subject. */
    method Begin(sc: Scope, a: Attributes, c: Context) returns (f: Found)
      modifies this`blankCounter, this`triples, this`subjects
      ensures f == Establish(sc, a, c, old(blankCounter))
      ensures Now() == RecordSubject(a, f, UseVocabulary(a, old(Now())))
    {
      hide Establish, SubjectOf;
      if a.vocab.Some? && a.vocab.value != "" {
        AddTriple(a.base, USES_VOCABULARY, Resource(a.vocab.value));
      }
      f := Establish(sc, a, c, blankCounter);
      blankCounter := f.counter;
      subjects := subjects + [(a, SubjectOf(a, f))];
    }

    method Visit(a: Attributes, c: Context) returns (child: Context, deferred: Option<Deferred>)
      requires c.listMapping < |mappings|
      modifies this`blankCounter, this`triples, this`mappings, this`lists, this`subjects
      ensures Visited(Now(), child, deferred) == VisitElement(rules, a, c, old(Now()))
    {
      hide Establish, Steps, ScopeOf, UseVocabulary, RecordSubject, ChildContext;
      var sc := ScopeOf(rules, a, c);
      var f := Begin(sc, a, c);
      var m := c.listMapping;
      var different := c.outer.None?;
      if OwnMapping(f, c) {
        m := |mappings|;
        mappings := mappings + [[]];
        different := true;
      }
      var resource, incomplete := EmitSteps(sc, a, c, f, m);
      var listSubject := f.subject;
      if !f.skip && resource != "" {
        listSubject := resource;
        m := |mappings|;
        mappings := mappings + [[]];
        different := true;
      }
      child := ChildContext(sc, a, c, f, resource, incomplete, m);
      deferred := if different then Some(Deferred(c, listSubject, m)) else None;
    }
  
    /** Visits every element below a root once, in document order, and prints each list mapping after its element. */
    method Process(root: Tree, base: string, language: string, prefixes: map<string, string>)
      modifies this`blankCounter, this`triples, this`mappings, this`lists, this`subjects, this`printed
      ensures var c := FirstContext(base, language, prefixes, rules.vocabulary);
              Now() == Traverse(rules, root, c, Fresh(old(Now())))
    {
      hide Traverse, VisitElement, Print;
      mappings, lists, printed := [[]], [], [];
      var queue := [Element(root, FirstContext(base, language, prefixes, rules.vocabulary))];
      ghost var goal := Traverse(rules, root, queue[0].context, Now());
      assert Run(rules, queue, Now()) == goal by {
        assert queue[1..] == [];
      }
      while queue != []
        invariant Ready(queue, Now()) && Run(rules, queue, Now()) == goal
        decreases Work(queue)
      {
        var item, rest := queue[0], queue[1..];
        ghost var st := Now();
        assert queue == [item] + rest && item in queue;
        if item.Lists? {
          var d := item.deferred;
          if d.context.outer != Some(d.listMapping) {
            GenerateLists(d.subject, d.listMapping);
          }
          assert Now() == Finish(d, st);
          assert Ready(rest, Now()) by { StillReady(rest, st, Now()); }
          queue := rest;
        } else {
          ghost var v := VisitElement(rules, item.tree.attributes, item.context, st);
          RunElement(rules, item.tree, item.context, rest, st);
          WorkBelow(item.tree, item.context, v, rest);
          var child, deferred := Visit(item.tree.attributes, item.context);
          assert v == Visited(Now(), child, deferred);
          queue := PushBelow(item.tree.children, child, deferred, rest);
          assert queue == Below(item.tree, v) + rest;
        }
      }
    }

    /** Puts the list mapping in front of the queue, and then the children from the last to the first. */
    method PushBelow(children: seq<Tree>, child: Context, deferred: Option<Deferred>, rest: seq<Item>)
      returns (queue: seq<Item>)
      ensures queue == ElementItems(children, child) + (if deferred.Some? then [Lists(deferred.value)] else []) + rest
    {
      queue := rest;
      if deferred.Some? {
        queue := [Lists(deferred.value)] + queue;
      }
      ghost var last := (if deferred.Some? then [Lists(deferred.value)] else []) + rest;
      var i := |children|;
      while i > 0
        invariant 0 <= i <= |children|
        invariant queue == ElementItems(children[i..], child) + last
      {
        i := i - 1;
        assert children[i..][1..] == children[i + 1..];
        queue := [Element(children[i], child)] + queue;
      }
      assert children[0..] == children;
    }
  }

  lemma StillReady(queue: seq<Item>, st: State, r: State)
    requires Ready(queue, st) && |st.mappings| <= |r.mappings|
    ensures Ready(queue, r)
  {
  }

  /** A run begins with one empty list mapping. */
  function Fresh(st: State): State {
    st.(mappings := [[]], lists := [], printed := [])
  }

  /** The context of the root. */
  function FirstContext(base: string, language: string, prefixes: map<string, string>, vocabulary: string): Context {
    Context(None, base, "", [], 0, language, prefixes, vocabulary)
  }
}
