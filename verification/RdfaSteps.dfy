/** The steps of the RDFa parser for one element, and the recursive traversal they make up. */
module RdfaSteps {
  import opened Helpers

  import opened RdfaStore

  /**
   How attribute values become IRIs. A failed resolution is "". `property` and `term` are given the
   default vocabulary, the prefixes and the base.
   */
  datatype Rules = Rules(
    resource: (string, map<string, string>, string) -> string,
    link: (string, string) -> string,
    property: (string, string, map<string, string>, string) -> string,
    term: (string, string, map<string, string>, string) -> string,
    fixXml: string -> string,
    vocabulary: string)

  /** A triple, or an item of a list, that waits for the subject of a descendant. */
  datatype Incomplete = Listed(property: string, list: nat) | Forward(property: string) | Reverse(property: string)

  /** `outer` is the list mapping of the parent context; the first context has none. */
  datatype Context = Context(
    outer: Option<nat>,
    subject: string,
    parentObject: string,
    incomplete: seq<Incomplete>,
    listMapping: nat,
    language: string,
    prefixes: map<string, string>,
    vocabulary: string)

  datatype Tree = Tree(attributes: Attributes, children: seq<Tree>)

  /** A list mapping to be printed once the element's descendants have been visited. */
  datatype Deferred = Deferred(context: Context, subject: string, listMapping: nat)

  datatype Visited = Visited(st: State, child: Context, deferred: Option<Deferred>)

  // What attribute values mean at an element --------------------------------------------------------------------

  datatype Scope = Scope(rules: Rules, vocabulary: string, prefixes: map<string, string>, base: string, language: string) {
    function Resource(value: Option<string>): string {
      if value.Some? then rules.resource(value.value, prefixes, base) else ""
    }

    function Link(value: Option<string>): string {
      if value.Some? then rules.link(base, value.value) else ""
    }

    function Property(token: string): string {
      rules.property(token, vocabulary, prefixes, base)
    }

    function Term(token: string): string {
      rules.term(token, vocabulary, prefixes, base)
    }
  }

  function ScopeOf(rules: Rules, a: Attributes, c: Context): Scope {
    Scope(rules,
          if a.vocab.None? then c.vocabulary else if a.vocab.value != "" then a.vocab.value else rules.vocabulary,
          c.prefixes + a.prefixes,
          a.base,
          if a.language != "" then a.language else c.language)
  }

  /** The first of two names that is there. */
  function Or(s: string, t: string): string {
    if s != "" then s else t
  }

  /** The parent object, or this element's base when the parent object is the base of the parent. */
  function Inherited(a: Attributes, c: Context): string {
    if a.parentBase == c.parentObject then a.base else c.parentObject
  }

  // Establishing the subject ------------------------------------------------------------------------------------

  /** `counter` is the number of blank nodes named afterwards: at most one more than before. */
  datatype Found = Found(subject: string, resource: string, typed: string, skip: bool, counter: nat)

  function Establish(sc: Scope, a: Attributes, c: Context, counter: nat): Found {
    if a.rel.Some? || a.rev.Some? then EstablishForRelation(sc, a, c, counter)
    else if a.property.Some? && a.content.None? && a.datatypeName.None? then EstablishForProperty(sc, a, c, counter)
    else EstablishOtherwise(sc, a, c, counter)
  }

  function EstablishForRelation(sc: Scope, a: Attributes, c: Context, counter: nat): Found {
    var about := sc.Resource(a.about);
    var subject :=
      if about != "" then about
      else if a.topmost then a.base
      else if c.parentObject != "" then Inherited(a, c)
      else "";
    var typedHere := a.typeof.Some? && a.about.None?;
    var named := sc.Resource(a.resource);
    var anew := named == "" && a.href.None? && a.src.None? && typedHere && !a.headOrBody;
    var resource :=
      if named != "" then named
      else if a.href.Some? then sc.Link(a.href)
      else if a.src.Some? then sc.Link(a.src)
      else if anew then Blank(counter + 1)
      else "";
    var typed :=
      if typedHere && a.headOrBody then subject
      else if typedHere then resource
      else if a.typeof.Some? then about
      else "";
    Found(subject, resource, typed, false, if anew then counter + 1 else counter)
  }

  function EstablishForProperty(sc: Scope, a: Attributes, c: Context, counter: nat): Found {
    var about := sc.Resource(a.about);
    var subject :=
      if about != "" then about
      else if a.topmost then a.base
      else if c.parentObject != "" then Inherited(a, c)
      else "";
    var typedHere := if a.typeof.None? then "" else if about == "" && a.topmost then a.base else about;
    if a.typeof.None? || typedHere != "" then Found(subject, "", typedHere, false, counter)
    else
      var named := Or(Or(sc.Resource(a.resource), sc.Link(a.href)), sc.Link(a.src));
      var typed := if named == "" && a.headOrBody then subject else named;
      if typed != "" then Found(subject, typed, typed, false, counter)
      else Found(subject, Blank(counter + 1), Blank(counter + 1), false, counter + 1)
  }

  function EstablishOtherwise(sc: Scope, a: Attributes, c: Context, counter: nat): Found {
    var named := Or(Or(Or(sc.Resource(a.about), sc.Resource(a.resource)), sc.Link(a.href)), sc.Link(a.src));
    var anew := named == "" && !a.topmost && !a.headOrBody && a.typeof.Some?;
    var inherits := named == "" && !a.topmost && !a.headOrBody && a.typeof.None? && c.parentObject != "";
    var subject :=
      if named != "" then named
      else if a.topmost then a.base
      else if a.headOrBody then Inherited(a, c)
      else if anew then Blank(counter + 1)
      else if inherits then Inherited(a, c)
      else "";
    Found(subject, "", if a.typeof.Some? then subject else "", inherits && a.property.None?,
          if anew then counter + 1 else counter)
  }

  // The steps that go through the tokens of an attribute ----------------------------------------------------------

  function AddTriples(sc: Scope, tokens: seq<string>, subject: string, obj: Value, st: State): State {
    if tokens == [] then st
    else
      var p := sc.Property(tokens[0]);
      AddTriples(sc, tokens[1..], subject, obj, if p != "" then AddTriple(st, subject, p, obj) else st)
  }

  function AddToLists(sc: Scope, tokens: seq<string>, m: nat, v: Value, st: State): (r: State)
    requires m < |st.mappings|
    ensures |r.mappings| == |st.mappings|
  {
    if tokens == [] then st
    else
      var p := sc.Property(tokens[0]);
      AddToLists(sc, tokens[1..], m, v, if p != "" then AddToList(st, m, p, v) else st)
  }

  function AddToList(st: State, m: nat, property: string, v: Value): (r: State)
    requires m < |st.mappings|
    ensures |r.mappings| == |st.mappings|
  {
    var (st', l) := ListFor(st, m, property);
    PushOn(st', l, v)
  }

  function AddTypes(sc: Scope, tokens: seq<string>, subject: string, st: State): State {
    if tokens == [] then st
    else
      var t := sc.Term(tokens[0]);
      AddTypes(sc, tokens[1..], subject, if t != "" then AddTriple(st, subject, TYPE, Resource(t)) else st)
  }

  /** Lists that wait for their next item. */
  function AwaitItems(sc: Scope, tokens: seq<string>, m: nat, st: State): (r: (State, seq<Incomplete>))
    requires m < |st.mappings|
    ensures |r.0.mappings| == |st.mappings|
  {
    if tokens == [] then (st, [])
    else
      var p := sc.Property(tokens[0]);
      if p == "" then AwaitItems(sc, tokens[1..], m, st)
      else
        var (st1, l) := ListFor(st, m, p);
        var (st2, more) := AwaitItems(sc, tokens[1..], m, st1);
        (st2, [Listed(p, l)] + more)
  }

  function AwaitTriples(sc: Scope, tokens: seq<string>, forward: bool): seq<Incomplete> {
    if tokens == [] then []
    else
      var p := sc.Property(tokens[0]);
      (if p == "" then [] else [if forward then Forward(p) else Reverse(p)]) + AwaitTriples(sc, tokens[1..], forward)
  }

  /** The triples and list items that waited are completed with a subject. */
  function Complete(waiting: seq<Incomplete>, outer: string, subject: string, st: State): State {
    if waiting == [] then st
    else Complete(waiting[1..], outer, subject, CompleteOne(waiting[0], outer, subject, st))
  }

  function CompleteOne(w: Incomplete, outer: string, subject: string, st: State): State {
    match w
    case Listed(_, l) => PushOn(st, l, Resource(subject))
    case Forward(p) => AddTriple(st, outer, p, Resource(subject))
    case Reverse(p) => AddTriple(st, subject, p, Resource(outer))
  }

  function Tokens(o: Option<seq<string>>): seq<string> {
    if o.Some? then o.value else []
  }

  // Relations and property values ---------------------------------------------------------------------------------

  /** rel and rev with an object at hand: triples, or items of lists. */
  function Relate(sc: Scope, a: Attributes, f: Found, m: nat, st: State): (r: State)
    requires m < |st.mappings|
    ensures |r.mappings| == |st.mappings|
  {
    var st1 :=
      if a.inlist then AddToLists(sc, Tokens(a.rel), m, Resource(f.resource), st)
      else AddTriples(sc, Tokens(a.rel), f.subject, Resource(f.resource), st);
    AddTriplesKeepsStore(sc, Tokens(a.rel), f.subject, Resource(f.resource), st);
    AddTriplesKeepsStore(sc, Tokens(a.rev), f.resource, Resource(f.subject), st1);
    AddTriples(sc, Tokens(a.rev), f.resource, Resource(f.subject), st1)
  }

  lemma AddTriplesKeepsStore(sc: Scope, tokens: seq<string>, subject: string, obj: Value, st: State)
    ensures var r := AddTriples(sc, tokens, subject, obj, st);
            r == st.(triples := r.triples) && st.triples <= r.triples
  {
  }

  datatype Awaited = Awaited(st: State, resource: string, incomplete: seq<Incomplete>)

  /** rel and rev without an object: a blank node stands for it, and descendants complete the triples. */
  function Await(sc: Scope, a: Attributes, f: Found, m: nat, st: State): (r: Awaited)
    requires m < |st.mappings|
    ensures |r.st.mappings| == |st.mappings|
  {
    var anew := f.subject != "" && (a.rel.Some? || a.rev.Some?);
    var st1 := if anew then NewBlank(st) else st;
    var resource := if anew then Blank(st.blankCounter + 1) else "";
    var (st2, listed) := if a.inlist then AwaitItems(sc, Tokens(a.rel), m, st1)
                         else (st1, AwaitTriples(sc, Tokens(a.rel), true));
    Awaited(st2, resource, listed + AwaitTriples(sc, Tokens(a.rev), false))
  }

  /** The value that the element's property attribute gives. */
  function PropertyValue(sc: Scope, a: Attributes, typed: string): Value {
    var (kind, content) :=
      if a.datatypeName.Some? then
        var kind := if a.datatypeName.value == "" then PLAIN_LITERAL else sc.Term(a.datatypeName.value);
        (kind,
         if a.content.Some? then if kind == XML_LITERAL then sc.rules.fixXml(a.content.value) else a.content.value
         else if kind == XML_LITERAL then a.xml else a.text)
      else if a.content.Some? then (PLAIN_LITERAL, a.content.value)
      else if a.rel.None? && a.rev.None? then
        var named := sc.Resource(a.resource);
        var iri := if named != "" then named else if a.href.Some? then sc.Link(a.href) else sc.Link(a.src);
        (if iri != "" then OBJECT else "", iri)
      else ("", "");
    if kind == XML_LITERAL then Value(XML_LITERAL, content, "")
    else if kind != "" then Value(kind, content, sc.language)
    else if a.typeof.Some? && a.about.None? then Value(OBJECT, typed, sc.language)
    else Value(PLAIN_LITERAL, a.text, sc.language)
  }

  function AddProperties(sc: Scope, a: Attributes, f: Found, m: nat, st: State): (r: State)
    requires m < |st.mappings|
    ensures |r.mappings| == |st.mappings|
  {
    var v := PropertyValue(sc, a, f.typed);
    AddTriplesKeepsStore(sc, Tokens(a.property), f.subject, v, st);
    if a.inlist then AddToLists(sc, Tokens(a.property), m, v, st)
    else AddTriples(sc, Tokens(a.property), f.subject, v, st)
  }

  // One element ---------------------------------------------------------------------------------------------------

  function UseVocabulary(a: Attributes, st: State): State {
    if a.vocab.Some? && a.vocab.value != "" then AddTriple(st, a.base, USES_VOCABULARY, Resource(a.vocab.value)) else st
  }

  function SubjectOf(a: Attributes, f: Found): string {
    if f.subject != "" && a.typeof.Some? && a.about.None? && f.resource != "" then f.resource else f.subject
  }

  /** The element's subject is set on it, and the blank nodes named for it are counted. */
  function RecordSubject(a: Attributes, f: Found, st: State): State {
    st.(blankCounter := f.counter, subjects := st.subjects + [(a, SubjectOf(a, f))])
  }

  /** The list mapping for the element's own properties: a new one when it has a subject of its own. */
  predicate OwnMapping(f: Found, c: Context) {
    f.subject != "" && f.subject != c.parentObject
  }

  /** Everything up to the child context: the state, the object resource, what waits for descendants. */
  function Steps(sc: Scope, a: Attributes, c: Context, f: Found, m: nat, st: State): (r: Awaited)
    requires m < |st.mappings|
    ensures |r.st.mappings| == |st.mappings|
  {
    var w := if f.resource != "" then Awaited(Relate(sc, a, f, m, st), f.resource, []) else Await(sc, a, f, m, st);
    var completed := if f.subject != "" && !f.skip then Complete(c.incomplete, c.subject, f.subject, w.st) else w.st;
    CompleteKeepsMappings(c.incomplete, c.subject, f.subject, w.st);
    var types := if f.typed != "" then Tokens(a.typeof) else [];
    AddTypesKeepsStore(sc, types, f.typed, completed);
    var typed := AddTypes(sc, types, f.typed, completed);
    w.(st := AddProperties(sc, a, f, m, typed))
  }

  lemma {:induction false} CompleteKeepsMappings(waiting: seq<Incomplete>, outer: string, subject: string, st: State)
    ensures Complete(waiting, outer, subject, st).mappings == st.mappings
    decreases |waiting|
  {
    if waiting != [] {
      CompleteKeepsMappings(waiting[1..], outer, subject, CompleteOne(waiting[0], outer, subject, st));
    }
  }

  lemma AddTypesKeepsStore(sc: Scope, tokens: seq<string>, subject: string, st: State)
    ensures var r := AddTypes(sc, tokens, subject, st);
            r == st.(triples := r.triples) && st.triples <= r.triples
  {
  }

  function ChildContext(sc: Scope, a: Attributes, c: Context, f: Found, resource: string, incomplete: seq<Incomplete>, m: nat): Context {
    if f.skip then
      Context(Some(c.listMapping), c.subject, Inherited(a, c), c.incomplete, c.listMapping,
              sc.language, sc.prefixes, sc.vocabulary)
    else
      Context(Some(c.listMapping), Or(f.subject, c.subject), Or(resource, Or(f.subject, c.subject)), incomplete, m,
              sc.language, sc.prefixes, sc.vocabulary)
  }

  /**
   The visit of one element. Its properties go to the list mapping `own`; the mapping handed to its
   children, and printed after them, is another new one when the element has an object resource.
   */
  function VisitElement(rules: Rules, a: Attributes, c: Context, st: State): (v: Visited)
    requires c.listMapping < |st.mappings|
    ensures v.child.outer == Some(c.listMapping)
    ensures v.child.listMapping < |v.st.mappings| && |st.mappings| <= |v.st.mappings|
    ensures v.deferred.Some? ==> v.deferred.value.listMapping < |v.st.mappings| && v.deferred.value.context == c
  {
    var sc := ScopeOf(rules, a, c);
    var f := Establish(sc, a, c, st.blankCounter);
    var st1 := RecordSubject(a, f, UseVocabulary(a, st));
    var own := OwnMapping(f, c);
    var st2 := if own then NewMapping(st1) else st1;
    var m := if own then |st1.mappings| else c.listMapping;
    var w := Steps(sc, a, c, f, m, st2);
    var inner := !f.skip && w.resource != "";
    var st3 := if inner then NewMapping(w.st) else w.st;
    var m' := if inner then |w.st.mappings| else m;
    var different := c.outer.None? || own || inner;
    Visited(st3, ChildContext(sc, a, c, f, w.resource, w.incomplete, m'),
            if different then Some(Deferred(c, if inner then w.resource else f.subject, m')) else None)
  }

  // The traversal -------------------------------------------------------------------------------------------------

  /** Step 14: prints a mapping, unless it is the one of the parent context. */
  function Finish(d: Deferred, st: State): State
    requires d.listMapping < |st.mappings|
  {
    if d.context.outer == Some(d.listMapping) then st else Print(st, d.subject, d.listMapping)
  }

  /** The element, its descendants in document order, and then its lists. */
  function Traverse(rules: Rules, t: Tree, c: Context, st: State): (r: State)
    requires c.listMapping < |st.mappings|
    ensures |st.mappings| <= |r.mappings|
    decreases t, 0
  {
    var v := VisitElement(rules, t.attributes, c, st);
    var st' := TraverseAll(rules, t.children, v.child, v.st);
    if v.deferred.Some? then Finish(v.deferred.value, st') else st'
  }

  function TraverseAll(rules: Rules, ts: seq<Tree>, c: Context, st: State): (r: State)
    requires c.listMapping < |st.mappings|
    ensures |st.mappings| <= |r.mappings|
    decreases ts, 1
  {
    if ts == [] then st else TraverseAll(rules, ts[1..], c, Traverse(rules, ts[0], c, st))
  }
}
