/**
 The RDF/XML serializer: prefixes allocated for the namespaces of properties, and triples grouped by
 subject. An object used as a dictionary keeps its keys in the order they were added, and an absent key is "".
 */
module RdfXml {
  import opened Helpers

  import T = RdfText
  import X = XmlText

  const RDF: string := "http://www.w3.org/1999/02/22-rdf-syntax-ns#"
  const XML_LITERAL: string := RDF + "XMLLiteral"
  const LANG_STRING: string := RDF + "langString"
  const STRING: string := "http://www.w3.org/2001/XMLSchema#string"

  /** The names in full. */
  lemma NamesInFull()
    ensures RDF == "http://www.w3.org/1999/02/22-rdf-syntax-ns#"
    ensures XML_LITERAL == "http://www.w3.org/1999/02/22-rdf-syntax-ns#XMLLiteral"
    ensures LANG_STRING == "http://www.w3.org/1999/02/22-rdf-syntax-ns#langString"
    ensures STRING == "http://www.w3.org/2001/XMLSchema#string"
  {
  }

  // Dictionaries --------------------------------------------------------------------------------------------------

  type Dictionary = seq<(string, string)>

  function Lookup(d: Dictionary, key: string): string {
    if d == [] then "" else if d[0].0 == key then d[0].1 else Lookup(d[1..], key)
  }

  function Put(d: Dictionary, key: string, value: string): Dictionary {
    if d == [] then [(key, value)]
    else if d[0].0 == key then [(key, value)] + d[1..]
    else [d[0]] + Put(d[1..], key, value)
  }

  lemma {:induction false} PutLookup(d: Dictionary, key: string, value: string, other: string)
    ensures Lookup(Put(d, key, value), other) == if other == key then value else Lookup(d, other)
    decreases |d|
  {
    if d != [] && d[0].0 != key {
      PutLookup(d[1..], key, value, other);
    }
  }

  predicate DistinctKeys(d: Dictionary) {
    forall i, j | 0 <= i < j < |d| :: d[i].0 != d[j].0
  }

  lemma {:induction false} PutKeys(d: Dictionary, key: string, value: string)
    ensures forall k | k in Put(d, key, value) :: k == (key, value) || k in d
    ensures DistinctKeys(d) ==> DistinctKeys(Put(d, key, value))
    decreases |d|
  {
    if d != [] && d[0].0 != key {
      PutKeys(d[1..], key, value);
      var more := Put(d[1..], key, value);
      if DistinctKeys(d) {
        assert forall j | 0 <= j < |d[1..]| :: d[1..][j] == d[j + 1];
        assert forall k | k in more :: k.0 != d[0].0;
        assert Put(d, key, value) == [d[0]] + more;
      }
    }
  }

  /** The first prefix, other than the empty one, that is bound to a namespace. */
  function FirstPrefix(d: Dictionary, all: Dictionary, namespace: string): (p: string)
    ensures p != "" ==> Lookup(all, p) == namespace
  {
    if d == [] then ""
    else if d[0].0 != "" && Lookup(all, d[0].0) == namespace then d[0].0
    else FirstPrefix(d[1..], all, namespace)
  }

  /** Binding a key to another namespace does not change which prefix is found for this one. */
  lemma {:induction false} FirstPrefixKept(d: Dictionary, all: Dictionary, all': Dictionary, namespace: string,
                                           key: string, value: string)
    requires namespace != "" && value != namespace && Lookup(all, key) != namespace
    requires forall p :: Lookup(all', p) == if p == key then value else Lookup(all, p)
    ensures FirstPrefix(Put(d, key, value), all', namespace) == FirstPrefix(d, all, namespace)
    ensures FirstPrefix(d, all', namespace) == FirstPrefix(d, all, namespace)
    decreases |d|
  {
    if d != [] {
      FirstPrefixKept(d[1..], all, all', namespace, key, value);
    }
  }

  lemma {:induction false} BoundIsListed(d: Dictionary, key: string)
    requires Lookup(d, key) != ""
    ensures (key, Lookup(d, key)) in d
    decreases |d|
  {
    if d[0].0 != key {
      BoundIsListed(d[1..], key);
    }
  }

  // Allocated prefixes --------------------------------------------------------------------------------------------

  function Auto(n: nat): string {
    "ns" + Decimal(n)
  }

  lemma AutoIsInjective(m: nat, n: nat)
    requires Auto(m) == Auto(n)
    ensures m == n
  {
    assert Auto(m)[2..] == Decimal(m) && Auto(n)[2..] == Decimal(n);
    DecimalIsInjective(m, n);
  }

  /** A key that an allocation from `id` on would run into. */
  ghost predicate IsAuto(key: string, id: nat) {
    exists n: nat :: id <= n && key == Auto(n)
  }

  ghost function Taken(d: Dictionary, id: nat): set<string> {
    set e | e in d && IsAuto(e.0, id) :: e.0
  }

  lemma NextIsFewer(d: Dictionary, id: nat)
    requires Lookup(d, Auto(id)) != ""
    ensures |Taken(d, id + 1)| < |Taken(d, id)|
  {
    BoundIsListed(d, Auto(id));
    assert IsAuto(Auto(id), id);
    assert Auto(id) in Taken(d, id);
    if IsAuto(Auto(id), id + 1) {
      var n: nat :| id + 1 <= n && Auto(id) == Auto(n);
      AutoIsInjective(id, n);
    }
    assert Auto(id) !in Taken(d, id + 1);
    assert Taken(d, id + 1) <= Taken(d, id) - {Auto(id)};
    Smaller(Taken(d, id + 1), Taken(d, id) - {Auto(id)});
  }

  lemma {:induction false} Smaller(a: set<string>, b: set<string>)
    requires a <= b
    ensures |a| <= |b|
    decreases |a|
  {
    if a != {} {
      var x :| x in a;
      Smaller(a - {x}, b - {x});
    }
  }

  // Names ---------------------------------------------------------------------------------------------------------

  predicate Break(c: char) {
    c == '/' || c == '#'
  }

  predicate LineEnd(c: char) {
    c == '\n' || c == '\r' || c == '\U{2028}' || c == '\U{2029}'
  }

  /** Where the part after the last '/' or '#' starts. */
  function LocalStart(uri: string): (n: nat)
    ensures n <= |uri|
    ensures forall c | c in uri[n..] :: !Break(c)
    ensures n > 0 ==> Break(uri[n - 1])
  {
    if uri == "" || Break(uri[|uri| - 1]) then |uri|
    else
      var n := LocalStart(uri[..|uri| - 1]);
      assert uri[n..] == uri[..|uri| - 1][n..] + [uri[|uri| - 1]];
      n
  }

  /** A namespace that ends with a break and has a character before it, on one line; and a local name. */
  function SplitName(uri: string): (r: Option<(string, string)>)
    ensures r.Some? ==> r.value.0 + r.value.1 == uri && r.value.0 != "" && r.value.1 != ""
  {
    var n := LocalStart(uri);
    if 2 <= n < |uri| && forall c | c in uri[..n] :: !LineEnd(c) then Some((uri[..n], uri[n..])) else None
  }

  /**
   A namespace of at least two characters that ends in '/' or '#', all on one line, and a local part that has
   neither and is not empty.
   */
  ghost predicate HasName(uri: string, namespace: string, local: string) {
    && uri == namespace + local && |namespace| >= 2 && local != ""
    && (namespace[|namespace| - 1] == '/' || namespace[|namespace| - 1] == '#')
    && '\n' !in namespace && '\r' !in namespace && '\U{2028}' !in namespace && '\U{2029}' !in namespace
    && '/' !in local && '#' !in local
  }

  /** These are the URIs that have a prefixed name, and this is how they split. */
  lemma SplitNameIff(uri: string, namespace: string, local: string)
    ensures SplitName(uri) == Some((namespace, local)) <==> HasName(uri, namespace, local)
  {
    if HasName(uri, namespace, local) {
      NamesSplit(uri, namespace, local);
    }
    if SplitName(uri) == Some((namespace, local)) {
      var n := LocalStart(uri);
      assert namespace == uri[..n] && local == uri[n..] && namespace[|namespace| - 1] == uri[n - 1];
      assert forall c | c in namespace :: !LineEnd(c);
      assert forall c | c in local :: !Break(c);
    }
  }

  lemma NamesSplit(uri: string, namespace: string, local: string)
    requires HasName(uri, namespace, local)
    ensures SplitName(uri) == Some((namespace, local))
  {
    var n, m := LocalStart(uri), |namespace|;
    assert uri[m - 1] == namespace[m - 1] && uri[m..] == local && uri[..m] == namespace;
    assert n <= m by { if n > m { NoBreakInLocal(uri, namespace, local, n); } }
    assert n >= m by { if n < m { BreakBeforeLocal(uri, namespace, local, n); } }
    assert forall c | c in uri[..n] :: !LineEnd(c);
  }

  lemma BreakBeforeLocal(uri: string, namespace: string, local: string, n: nat)
    requires HasName(uri, namespace, local) && n < |namespace|
    ensures exists c :: c in uri[n..] && Break(c)
  {
    var m := |namespace|;
    assert uri[m - 1] == namespace[m - 1] == uri[n..][m - 1 - n];
    assert uri[m - 1] in uri[n..];
  }

  lemma NoBreakInLocal(uri: string, namespace: string, local: string, n: nat)
    requires HasName(uri, namespace, local) && |namespace| < n <= |uri|
    ensures !Break(uri[n - 1])
  {
    assert uri[n - 1] == local[n - 1 - |namespace|];
  }

  lemma SplitNameWhenNamed()
    ensures forall uri :: SplitName(uri).Some? <==> exists namespace, local :: HasName(uri, namespace, local)
  {
    forall uri ensures SplitName(uri).Some? <==> exists namespace, local :: HasName(uri, namespace, local) {
      if SplitName(uri).Some? {
        SplitNameIff(uri, SplitName(uri).value.0, SplitName(uri).value.1);
      }
      if namespace, local :| HasName(uri, namespace, local) {
        SplitNameIff(uri, namespace, local);
      }
    }
  }

  function Declaration(prefix: string, namespace: string): (r: string)
    ensures r != ""
  {
    " xmlns:" + prefix + "=\"" + namespace + "\""
  }

  function QName(prefix: string, local: string): string {
    prefix + ":" + local
  }

  // Terms -----------------------------------------------------------------------------------------------------------

  function NodeTerm(term: string, pname: string): string {
    if T.IsBlank(term) then "rdf:nodeID=\"bn" + term[2..] + "\"" else pname + "=\"" + X.EscapeAmpersand(term) + "\""
  }

  function SubjectTerm(subject: string): string {
    NodeTerm(subject, "rdf:about")
  }

  lemma {:induction false} AmpersandIsInjective(a: string, b: string)
    requires X.EscapeAmpersand(a) == X.EscapeAmpersand(b)
    ensures a == b
    decreases |a|
  {
    if a != "" && b != "" {
      var a', b' := X.EscapeAmpersand(a), X.EscapeAmpersand(b);
      assert a'[0] == a[0] && b'[0] == b[0];
      var k := if a[0] == '&' then 5 else 1;
      assert a'[k..] == X.EscapeAmpersand(a[1..]) && b'[k..] == X.EscapeAmpersand(b[1..]);
      AmpersandIsInjective(a[1..], b[1..]);
      assert a == [a[0]] + a[1..] && b == [b[0]] + b[1..];
    }
  }

  /** Grouping by the text of the subject is grouping by the subject. */
  lemma SameTermSameSubject(a: string, b: string)
    requires SubjectTerm(a) == SubjectTerm(b)
    ensures a == b
  {
    var ta, tb := SubjectTerm(a), SubjectTerm(b);
    assert ta[4] == (if T.IsBlank(a) then 'n' else 'a') && tb[4] == (if T.IsBlank(b) then 'n' else 'a');
    if T.IsBlank(a) {
      assert ta[14..|ta| - 1] == a[2..] && tb[14..|tb| - 1] == b[2..];
      assert a == a[..2] + a[2..] && b == b[..2] + b[2..];
      assert a[..2] == "_:" == b[..2];
    } else {
      assert ta[11..|ta| - 1] == X.EscapeAmpersand(a) && tb[11..|tb| - 1] == X.EscapeAmpersand(b);
      AmpersandIsInjective(a, b);
    }
  }

  // Triples and their grouping ------------------------------------------------------------------------------------

  /** An absent datatype is "". */
  datatype Triple = Triple(subject: string, property: string, obj: string, dt: string, language: string)

  function ObjectElement(name: string, t: Triple): string {
    "<" + name + ObjectRest(name, t)
  }

  /** What follows the name in the element of an object. */
  function ObjectRest(name: string, t: Triple): string {
    if t.dt == "" then " " + NodeTerm(t.obj, "rdf:resource") + "/>"
    else if t.dt == XML_LITERAL then " rdf:parseType=\"Literal\">" + t.obj + "</" + name + ">"
    else if t.dt == LANG_STRING then " xml:lang=\"" + t.language + "\">" + X.BuildLiteral(t.obj) + "</" + name + ">"
    else if t.dt == STRING then ">" + X.BuildLiteral(t.obj) + "</" + name + ">"
    else " rdf:datatype=\"" + t.dt + "\">" + X.BuildLiteral(t.obj) + "</" + name + ">"
  }

  lemma DatatypesDiffer()
    ensures XML_LITERAL != STRING && LANG_STRING != STRING && XML_LITERAL != LANG_STRING
  {
    assert XML_LITERAL[18] == '1' == LANG_STRING[18] && STRING[18] == '2';
    assert XML_LITERAL[|RDF|] == 'X' && LANG_STRING[|RDF|] == 'l';
  }

  /** A triple that was added, with the prefix its property was given; none when it has no prefixed name. */
  datatype Added = Added(triple: Triple, prefix: Option<string>)

  const INDENT: string := "\n\t\t"

  function Lines(a: Added): seq<string> {
    if a.prefix.None? || SplitName(a.triple.property).None? then [INDENT]
    else [INDENT, ObjectElement(QName(a.prefix.value, SplitName(a.triple.property).value.1), a.triple)]
  }

  /** The lines of one subject, in the order its triples were added. */
  function LinesOf(log: seq<Added>, term: string): seq<string> {
    if log == [] then []
    else
      var a := log[|log| - 1];
      LinesOf(log[..|log| - 1], term) + if SubjectTerm(a.triple.subject) == term then Lines(a) else []
  }

  /** The subjects in the order of their first triples. */
  function Terms(log: seq<Added>): seq<string> {
    if log == [] then []
    else
      var before, term := Terms(log[..|log| - 1]), SubjectTerm(log[|log| - 1].triple.subject);
      if term in before then before else before + [term]
  }

  type Groups = seq<(string, seq<string>)>

  function GroupsOf(log: seq<Added>): (r: Groups)
    ensures |r| == |Terms(log)|
  {
    seq(|Terms(log)|, i requires 0 <= i < |Terms(log)| => (Terms(log)[i], LinesOf(log, Terms(log)[i])))
  }

  /** Every subject is listed once, and every triple's subject is listed. */
  lemma {:induction false} TermsAreDistinct(log: seq<Added>)
    ensures forall i, j | 0 <= i < j < |Terms(log)| :: Terms(log)[i] != Terms(log)[j]
    ensures forall a | a in log :: SubjectTerm(a.triple.subject) in Terms(log)
    ensures forall term | term !in Terms(log) :: LinesOf(log, term) == []
    decreases |log|
  {
    if log != [] {
      var front, a := log[..|log| - 1], log[|log| - 1];
      TermsAreDistinct(front);
      assert log == front + [a];
    }
  }

  function IndexOf(g: Groups, term: string): (i: nat)
    ensures i <= |g|
    ensures i < |g| ==> g[i].0 == term
    ensures forall j | 0 <= j < i :: g[j].0 != term
  {
    if g == [] || g[0].0 == term then 0 else 1 + IndexOf(g[1..], term)
  }

  function Append(g: Groups, term: string, lines: seq<string>): Groups {
    var i := IndexOf(g, term);
    if i < |g| then g[i := (term, g[i].1 + lines)] else g + [(term, lines)]
  }

  /** Appending a triple's lines to its subject's group is grouping the longer log. */
  lemma AppendGroups(log: seq<Added>, a: Added)
    ensures Append(GroupsOf(log), SubjectTerm(a.triple.subject), Lines(a)) == GroupsOf(log + [a])
  {
    hide Lines, SubjectTerm;
    var log', term, g := log + [a], SubjectTerm(a.triple.subject), GroupsOf(log);
    assert log'[..|log|] == log;
    TermsAreDistinct(log);
    var i := IndexOf(g, term);
    var r := Append(g, term, Lines(a));
    assert i < |g| <==> term in Terms(log) by {
      if term in Terms(log) {
        var k :| 0 <= k < |Terms(log)| && Terms(log)[k] == term;
        assert g[k].0 == term;
      }
    }
    forall k | 0 <= k < |r| ensures r[k] == GroupsOf(log')[k] {
      var t := Terms(log')[k];
      assert LinesOf(log', t) == LinesOf(log, t) + if t == term then Lines(a) else [];
      assert LinesOf(log, t) + [] == LinesOf(log, t) && [] + Lines(a) == Lines(a);
      if k < |g| {
        assert t == Terms(log)[k];
        assert i < |g| ==> Terms(log)[i] == term;
      }
    }
  }

  // The document --------------------------------------------------------------------------------------------------

  function Concat(lines: seq<string>): string {
    if lines == [] then "" else lines[0] + Concat(lines[1..])
  }

  function Declarations(d: Dictionary): string {
    if d == [] then "" else d[0].1 + Declarations(d[1..])
  }

  function Descriptions(g: Groups): string {
    if g == [] then ""
    else "\n\t<rdf:Description " + g[0].0 + ">" + Concat(g[0].1) + "\n\t</rdf:Description>" + Descriptions(g[1..])
  }

  function Document(declared: Dictionary, g: Groups): string {
    "<?xml version=\"1.0\" encoding=\"UTF-8\"?>" + "\n" + "<rdf:RDF" + Declarations(declared) + ">" + Descriptions(g)
    + "\n" + "</rdf:RDF>"
  }

  lemma {:induction false} DeclarationsOfBoth(a: Dictionary, b: Dictionary)
    ensures Declarations(a + b) == Declarations(a) + Declarations(b)
    decreases |a|
  {
    if a == [] {
      assert a + b == b;
    } else {
      assert (a + b)[1..] == a[1..] + b;
      DeclarationsOfBoth(a[1..], b);
    }
  }

  lemma {:induction false} DescriptionsOfBoth(a: Groups, b: Groups)
    ensures Descriptions(a + b) == Descriptions(a) + Descriptions(b)
    decreases |a|
  {
    if a == [] {
      assert a + b == b;
    } else {
      assert (a + b)[1..] == a[1..] + b;
      DescriptionsOfBoth(a[1..], b);
      var head := "\n\t<rdf:Description " + a[0].0 + ">" + Concat(a[0].1) + "\n\t</rdf:Description>";
      assert head + (Descriptions(a[1..]) + Descriptions(b)) == head + Descriptions(a[1..]) + Descriptions(b);
    }
  }

  // The header --------------------------------------------------------------------------------------------------

  /** A declared prefix is bound to the namespace it is declared with. */
  predicate Declared(prefixes: Dictionary, buffer: Dictionary) {
    && DistinctKeys(buffer)
    && forall e | e in buffer ::
        e.0 != "" && Lookup(prefixes, e.0) != "" && e.1 == Declaration(e.0, Lookup(prefixes, e.0))
  }

  /** The name of a triple's property is written with a prefix whose declaration has the property's namespace. */
  predicate Expands(buffer: Dictionary, a: Added) {
    && (a.prefix.None? <==> SplitName(a.triple.property).None?)
    && (a.prefix.Some? ==>
        var (namespace, local) := SplitName(a.triple.property).value;
        namespace + local == a.triple.property && Lookup(buffer, a.prefix.value) == Declaration(a.prefix.value, namespace))
  }

  /** Every prefix in the header names the property of a triple, or is bound to RDF. */
  ghost predicate Used(prefixes: Dictionary, buffer: Dictionary, log: seq<Added>) {
    forall e | e in buffer :: Lookup(prefixes, e.0) == RDF || exists a :: a in log && a.prefix == Some(e.0)
  }

  lemma DeclaredKept(prefixes: Dictionary, prefixes': Dictionary, buffer: Dictionary)
    requires Declared(prefixes, buffer)
    requires forall p | Lookup(prefixes, p) != "" :: Lookup(prefixes', p) == Lookup(prefixes, p)
    ensures Declared(prefixes', buffer)
  {
  }

  /** Declaring a prefix that is bound adds its declaration and changes no other. */
  lemma DeclareOne(prefixes: Dictionary, buffer: Dictionary, prefix: string)
    requires Declared(prefixes, buffer) && prefix != "" && Lookup(prefixes, prefix) != ""
    ensures var buffer' := Put(buffer, prefix, Declaration(prefix, Lookup(prefixes, prefix)));
            && Declared(prefixes, buffer')
            && Lookup(buffer', prefix) == Declaration(prefix, Lookup(prefixes, prefix))
            && (forall p | Lookup(buffer, p) != "" :: Lookup(buffer', p) == Lookup(buffer, p))
            && forall e | e in buffer' :: e.0 == prefix || e in buffer
  {
    hide Declaration, DistinctKeys;
    var d := Declaration(prefix, Lookup(prefixes, prefix));
    PutKeys(buffer, prefix, d);
    forall p ensures Lookup(Put(buffer, prefix, d), p) == if p == prefix then d else Lookup(buffer, p) {
      PutLookup(buffer, prefix, d, p);
    }
    if Lookup(buffer, prefix) != "" {
      BoundIsListed(buffer, prefix);
    }
  }

  lemma PutOnlyThere(d: Dictionary, key: string, value: string)
    ensures forall p :: Lookup(Put(d, key, value), p) == if p == key then value else Lookup(d, p)
  {
    forall p ensures Lookup(Put(d, key, value), p) == if p == key then value else Lookup(d, p) {
      PutLookup(d, key, value, p);
    }
  }

  lemma ExpandsStill(log: seq<Added>, buffer: Dictionary, buffer': Dictionary)
    requires forall a | a in log :: Expands(buffer, a)
    requires forall p | Lookup(buffer, p) != "" :: Lookup(buffer', p) == Lookup(buffer, p)
    ensures forall a | a in log :: Expands(buffer', a)
  {
    hide Lookup;
    forall a | a in log ensures Expands(buffer', a) {
      assert Expands(buffer, a);
    }
  }

  lemma UsedKept(prefixes: Dictionary, prefixes': Dictionary, buffer: Dictionary, buffer': Dictionary,
                 log: seq<Added>, log': seq<Added>, prefix: string)
    requires Used(prefixes, buffer, log)
    requires forall p | Lookup(prefixes, p) != "" :: Lookup(prefixes', p) == Lookup(prefixes, p)
    requires forall a | a in log :: a in log'
    requires forall e | e in buffer' :: e in buffer || e.0 == prefix
    requires Lookup(prefixes', prefix) == RDF || buffer' == buffer || exists a :: a in log' && a.prefix == Some(prefix)
    ensures Used(prefixes', buffer', log')
  {
    hide Lookup;
    forall e | e in buffer'
      ensures Lookup(prefixes', e.0) == RDF || exists a :: a in log' && a.prefix == Some(e.0) {
      if e in buffer && Lookup(prefixes, e.0) != RDF {
        var a :| a in log && a.prefix == Some(e.0);
        assert a in log';
      }
    }
  }
}
