/**
 What an RDFa run has produced so far: the triples, the blank nodes named, the subject given to each
 element, and the list mappings. A list mapping and a list are shared by reference in the parser, so
 they live here in a store and are referred to by their index.
 */
module RdfaStore {
  import opened Helpers

  const RDF: string := "http://www.w3.org/1999/02/22-rdf-syntax-ns#"
  const TYPE: string := RDF + "type"
  const OBJECT: string := RDF + "object"
  const XML_LITERAL: string := RDF + "XMLLiteral"
  const PLAIN_LITERAL: string := RDF + "PlainLiteral"
  const FIRST: string := RDF + "first"
  const REST: string := RDF + "rest"
  const NIL: string := RDF + "nil"
  const USES_VOCABULARY: string := "http://www.w3.org/ns/rdfa#usesVocabulary"

  /** The names in full. */
  lemma NamesInFull()
    ensures TYPE == "http://www.w3.org/1999/02/22-rdf-syntax-ns#type"
    ensures OBJECT == "http://www.w3.org/1999/02/22-rdf-syntax-ns#object"
    ensures XML_LITERAL == "http://www.w3.org/1999/02/22-rdf-syntax-ns#XMLLiteral"
    ensures PLAIN_LITERAL == "http://www.w3.org/1999/02/22-rdf-syntax-ns#PlainLiteral"
    ensures FIRST == "http://www.w3.org/1999/02/22-rdf-syntax-ns#first"
    ensures REST == "http://www.w3.org/1999/02/22-rdf-syntax-ns#rest"
    ensures NIL == "http://www.w3.org/1999/02/22-rdf-syntax-ns#nil"
    ensures USES_VOCABULARY == "http://www.w3.org/ns/rdfa#usesVocabulary"
  {
  }

  /** The object of a triple; an absent language is "". */
  datatype Value = Value(kind: string, value: string, language: string)

  /** A triple as it is handed to addTriple; an absent subject is "". */
  datatype Triple = Triple(subject: string, property: string, obj: Value)

  function Resource(iri: string): Value {
    Value(OBJECT, iri, "")
  }

  /** One property of a list mapping, in the order the properties were added. */
  datatype Slot = Slot(property: string, list: nat)

  /** A list knows the mapping it was created in. */
  datatype List = List(owner: nat, items: seq<Value>)

  /** A list as it was printed: `first` is the number of the last blank node named before it. */
  datatype Entry = Entry(property: string, first: nat, items: seq<Value>)

  /** A list mapping as it was printed. */
  datatype Emission = Emission(mapping: nat, subject: string, entries: seq<Entry>)

  datatype Attributes = Attributes(
    base: string,
    parentBase: string,
    topmost: bool,
    headOrBody: bool,
    vocab: Option<string>,
    prefixes: map<string, string>,
    language: string,
    rel: Option<seq<string>>,
    rev: Option<seq<string>>,
    typeof: Option<seq<string>>,
    property: Option<seq<string>>,
    datatypeName: Option<string>,
    content: Option<string>,
    about: Option<string>,
    src: Option<string>,
    resource: Option<string>,
    href: Option<string>,
    inlist: bool,
    text: string,
    xml: string)

  datatype State = State(
    blankCounter: nat,
    triples: seq<Triple>,
    mappings: seq<seq<Slot>>,
    lists: seq<List>,
    subjects: seq<(Attributes, string)>,
    printed: seq<Emission>)

  // Names of blank nodes --------------------------------------------------------------------------------------

  function Blank(n: nat): string {
    "_:" + Decimal(n)
  }

  lemma BlankIsInjective(m: nat, n: nat)
    requires Blank(m) == Blank(n)
    ensures m == n
  {
    assert Blank(m)[2..] == Decimal(m) && Blank(n)[2..] == Decimal(n);
    DecimalIsInjective(m, n);
  }

  lemma BlankIsNotNil(n: nat)
    ensures Blank(n) != NIL && Blank(n) != ""
  {
    assert Blank(n)[0] == '_' && NIL[0] == 'h';
  }

  // Primitive steps -------------------------------------------------------------------------------------------

  function AddTriple(st: State, subject: string, property: string, obj: Value): State {
    st.(triples := st.triples + [Triple(subject, property, obj)])
  }

  /** The name of the node is Blank of the new counter. */
  function NewBlank(st: State): State {
    st.(blankCounter := st.blankCounter + 1)
  }

  /** The new mapping is the last one. */
  function NewMapping(st: State): State {
    st.(mappings := st.mappings + [[]])
  }

  function Find(slots: seq<Slot>, property: string): (i: nat)
    ensures i <= |slots|
    ensures i < |slots| ==> slots[i].property == property
    ensures forall j | 0 <= j < i :: slots[j].property != property
  {
    if slots == [] || slots[0].property == property then 0 else 1 + Find(slots[1..], property)
  }

  /** The list of a property in a mapping, created when the mapping has none. */
  function ListFor(st: State, m: nat, property: string): (State, nat)
    requires m < |st.mappings|
  {
    var i := Find(st.mappings[m], property);
    if i < |st.mappings[m]| then (st, st.mappings[m][i].list)
    else
      var l := |st.lists|;
      (st.(lists := st.lists + [List(m, [])],
           mappings := st.mappings[m := st.mappings[m] + [Slot(property, l)]]), l)
  }

  function PushOn(st: State, l: nat, v: Value): State
  {
    if l < |st.lists| then st.(lists := st.lists[l := st.lists[l].(items := st.lists[l].items + [v])]) else st
  }

  // Printing a list mapping -----------------------------------------------------------------------------------

  /** The node of item `k` of a list, and rdf:nil past its end. */
  function Node(e: Entry, k: nat): string {
    if k < |e.items| then Blank(e.first + 1 + k) else NIL
  }

  /** The rdf:first and rdf:rest triples of a list from item `k` on. */
  function Cells(e: Entry, k: nat): seq<Triple>
    requires k <= |e.items|
    decreases |e.items| - k
  {
    if k == |e.items| then []
    else [Triple(Node(e, k), FIRST, e.items[k]), Triple(Node(e, k), REST, Resource(Node(e, k + 1)))] + Cells(e, k + 1)
  }

  function EntryTriples(subject: string, e: Entry): seq<Triple> {
    Cells(e, 0) + [Triple(subject, e.property, Resource(Node(e, 0)))]
  }

  function EntriesTriples(subject: string, entries: seq<Entry>): seq<Triple> {
    if entries == [] then [] else EntryTriples(subject, entries[0]) + EntriesTriples(subject, entries[1..])
  }

  /** The entries of slots whose lists are printed when `first` blank nodes have been named. */
  function Entries(lists: seq<List>, slots: seq<Slot>, first: nat): (es: seq<Entry>)
    ensures |es| == |slots|
  {
    if slots == [] then []
    else
      var e := EntryOf(lists, slots[0], first);
      [e] + Entries(lists, slots[1..], first + |e.items|)
  }

  function EntryOf(lists: seq<List>, slot: Slot, first: nat): Entry {
    Entry(slot.property, first, if slot.list < |lists| then lists[slot.list].items else [])
  }

  function Named(entries: seq<Entry>): nat {
    if entries == [] then 0 else |entries[0].items| + Named(entries[1..])
  }

  /** Prints a whole mapping: its lists in order, and for each the triple that points at it. */
  function Print(st: State, subject: string, m: nat): State
    requires m < |st.mappings|
  {
    var entries := Entries(st.lists, st.mappings[m], st.blankCounter);
    st.(blankCounter := st.blankCounter + Named(entries),
        triples := st.triples + EntriesTriples(subject, entries),
        printed := st.printed + [Emission(m, subject, entries)])
  }
}
