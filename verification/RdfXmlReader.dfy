/**
 RDF/XML read back: the part of its grammar that the serializer writes, with names expanded by the bindings of the
 document's own header, attributes and text as XML has them, and the reserved names of section 5.1 of RDF/XML refused.
 IRIs are taken as they are written: nothing is resolved against a base.
 */
module RdfXmlReader {
  import opened Helpers
  import opened RdfXml

  import T = RdfText
  import X = XmlText

  datatype Node = Blank(id: string) | Iri(iri: string)

  datatype Object = Resource(node: Node) | Literal(text: string, dt: string, language: string)

  datatype Statement = Statement(property: string, obj: Object)

  datatype Description = Description(subject: Node, statements: seq<Statement>)

  datatype Contents = Contents(bindings: Dictionary, descriptions: seq<Description>)

  // Names -----------------------------------------------------------------------------------------------------------

  const XML: string := "http://www.w3.org/XML/1998/namespace"
  const XMLNS: string := "http://www.w3.org/2000/xmlns/"

  /** What may be bound to what: section 3 of "Namespaces in XML". */
  predicate Binding(prefix: string, namespace: string) {
    && X.NCName(prefix) && prefix != "xmlns" && (prefix == "xml" <==> namespace == XML)
    && namespace != "" && namespace != XMLNS
  }

  function ReadBindings(a: X.Attributes): Option<Dictionary> {
    if a == [] then Some([])
    else if !("xmlns:" <= a[0].0) || !Binding(a[0].0[6..], a[0].1) then None
    else
      var more :- ReadBindings(a[1..]);
      Some([(a[0].0[6..], a[0].1)] + more)
  }

  function Colon(s: string): (n: nat)
    ensures n <= |s| && forall i | 0 <= i < n :: s[i] != ':'
    ensures n < |s| ==> s[n] == ':'
  {
    if s == "" || s[0] == ':' then 0 else 1 + Colon(s[1..])
  }

  function Expand(b: Dictionary, name: string): Option<string> {
    var n := Colon(name);
    if n < |name| && X.NCName(name[..n]) && X.NCName(name[n + 1..]) && Lookup(b, name[..n]) != "" then
      Some(Lookup(b, name[..n]) + name[n + 1..])
    else None
  }

  /** What no property may be called. */
  predicate Reserved(uri: string) {
    && RDF <= uri
    && uri[|RDF|..] in ["RDF", "ID", "about", "parseType", "resource", "nodeID", "datatype",
                        "Description", "aboutEach", "aboutEachPrefix", "bagID"]
  }

  /** The name that stands for the numbered properties in turn. */
  const LI: string := RDF + "li"

  function PropertyOf(uri: string, li: nat): string {
    if uri == LI then RDF + "_" + Decimal(li) else uri
  }

  // Elements --------------------------------------------------------------------------------------------------------

  function ReadNode(a: (string, string), pname: string): Option<Node> {
    if a.0 == pname then Some(Iri(a.1))
    else if a.0 == "rdf:nodeID" && X.NCName(a.1) then Some(Blank(a.1))
    else None
  }

  function CloseTag(name: string, s: string): (r: Option<string>)
    ensures r.Some? ==> |r.value| < |s|
  {
    if !("</" + name <= s) then None
    else
      var after := X.Skip(s[|name| + 2..]);
      if ">" <= after then Some(after[1..]) else None
  }

  /** The literal in an element, and its closing tag. */
  function ReadContent(a: X.Attributes, s: string): (r: Option<(Object, string)>)
    ensures r.Some? ==> |r.value.1| <= |s|
  {
    if a == [("rdf:parseType", "Literal")] then
      var (markup, rest) :- X.ReadMarkup(X.SCAN, s);
      Some((Literal(markup, XML_LITERAL, ""), rest))
    else
      var (text, rest) :- X.ReadText(s);
      if a == [] then Some((Literal(text, STRING, ""), rest))
      else if |a| == 1 && a[0].0 == "xml:lang" then
        Some((Literal(text, if a[0].1 == "" then STRING else LANG_STRING, a[0].1), rest))
      else if |a| == 1 && a[0].0 == "rdf:datatype" then Some((Literal(text, a[0].1, ""), rest))
      else None
  }

  /** What follows the name of a property's element. */
  function ReadObject(name: string, s: string): (r: Option<(Object, string)>)
    ensures r.Some? ==> |r.value.1| < |s|
  {
    var (tag, body) :- X.ReadTag(s);
    if tag.empty then
      if |tag.attributes| != 1 then None
      else
        var node :- ReadNode(tag.attributes[0], "rdf:resource");
        Some((Resource(node), body))
    else
      var (obj, rest) :- ReadContent(tag.attributes, body);
      var more :- CloseTag(name, rest);
      Some((obj, more))
  }

  /** The statements of a description up to its closing tag; `li` counts the numbered properties. */
  function ReadStatements(b: Dictionary, li: nat, s: string): (r: Option<(seq<Statement>, string)>)
    ensures r.Some? ==> |r.value.1| < |s|
    decreases |s|
  {
    var t := X.Skip(s);
    var end := CloseTag("rdf:Description", t);
    if end.Some? then Some(([], end.value))
    else if !("<" <= t) then None
    else
      var (name, after) :- X.ReadName(t[1..]);
      var uri :- Expand(b, name);
      var (obj, rest) :- ReadObject(name, after);
      if Reserved(uri) then None
      else
        var (more, last) :- ReadStatements(b, if uri == LI then li + 1 else li, rest);
        Some(([Statement(PropertyOf(uri, li), obj)] + more, last))
  }

  function ReadDescriptions(b: Dictionary, s: string): Option<seq<Description>>
    decreases |s|
  {
    var t := X.Skip(s);
    var end := CloseTag("rdf:RDF", t);
    if end.Some? then if X.Skip(end.value) == "" then Some([]) else None
    else if !("<rdf:Description" <= t) then None
    else
      var (tag, body) :- X.ReadTag(t[16..]);
      if tag.empty || |tag.attributes| != 1 then None
      else
        var subject :- ReadNode(tag.attributes[0], "rdf:about");
        var (statements, rest) :- ReadStatements(b, 1, body);
        var more :- ReadDescriptions(b, rest);
        Some([Description(subject, statements)] + more)
  }

  const PROLOG: string := "<?xml version=\"1.0\" encoding=\"UTF-8\"?>"

  /** Everything from the attributes of the outermost element on. */
  function ReadRoot(s: string): Option<Contents> {
    var (tag, body) :- X.ReadTag(s);
    if tag.empty || !X.UniqueNames(tag.attributes) then None
    else
      var b :- ReadBindings(tag.attributes);
      if Lookup(b, "rdf") != RDF then None
      else
        var descriptions :- ReadDescriptions(b, body);
        Some(Contents(b, descriptions))
  }

  function ReadDocument(s: string): Option<Contents> {
    if !(PROLOG <= s) then None
    else
      var t := X.Skip(s[|PROLOG|..]);
      if "<rdf:RDF" <= t then ReadRoot(t[8..]) else None
  }

  // What was meant --------------------------------------------------------------------------------------------------

  /** Blank nodes are renamed by putting "bn" before their labels. */
  function NodeOf(term: string): Node {
    if T.IsBlank(term) then Blank("bn" + term[2..]) else Iri(term)
  }

  function ObjectOf(t: Triple): Object {
    if t.dt == "" then Resource(NodeOf(t.obj)) else Literal(t.obj, t.dt, if t.dt == LANG_STRING then t.language else "")
  }

  predicate CleanNode(term: string) {
    if T.IsBlank(term) then X.NCName("bn" + term[2..]) else X.Escapable(term)
  }

  predicate CleanObject(t: Triple) {
    if t.dt == "" then CleanNode(t.obj)
    else if t.dt == XML_LITERAL then X.Balanced(t.obj)
    else if t.dt == LANG_STRING then t.language != "" && X.Verbatim(t.language) && X.CleanText(t.obj)
    else (t.dt == STRING || X.Verbatim(t.dt)) && X.CleanText(t.obj)
  }

  // Objects read back -----------------------------------------------------------------------------------------------

  lemma {:induction false} NamesAreVerbatim(s: string)
    requires X.NCName(s)
    ensures X.Verbatim(s)
  {
    forall c | c in s ensures X.Lasting(c) && c != '&' {
      assert X.NamePart(c);
    }
  }

  lemma FixedNames()
    ensures X.Name("rdf:nodeID") && X.Name("rdf:about") && X.Name("rdf:resource") && X.Name("rdf:parseType")
    ensures X.Name("xml:lang") && X.Name("rdf:datatype")
  {
  }

  /** The attribute of a node, at the end of a tag: it reads back exactly when the node is clean. */
  lemma NodeReads(term: string, pname: string, end: string, tag: X.Tag, rest: string)
    requires pname == "rdf:about" || pname == "rdf:resource"
    requires X.ReadTag(end) == Some((tag, rest)) && tag.attributes == []
    ensures var r := X.ReadTag(" " + NodeTerm(term, pname) + end);
            && (CleanNode(term) ==>
                  && r.Some? && r.value.0.empty == tag.empty && r.value.1 == rest
                  && |r.value.0.attributes| == 1 && ReadNode(r.value.0.attributes[0], pname) == Some(NodeOf(term)))
            && (r.Some? ==> r.value.0.attributes != [])
            && (r.Some? && ReadNode(r.value.0.attributes[0], pname) == Some(NodeOf(term)) ==> CleanNode(term))
  {
    hide X.ReadTag, X.ReadValue, X.Name, X.NCName, X.Verbatim, X.Escapable, X.EscapeAmpersand, NodeTerm;
    FixedNames();
    NodeTermIs(term, pname, end);
    if T.IsBlank(term) {
      var v := "bn" + term[2..];
      X.TagSteps("rdf:nodeID", v + "\"" + end);
      X.RawValueReads(v, end);
      if X.NCName(v) {
        NamesAreVerbatim(v);
      }
    } else {
      X.TagSteps(pname, X.EscapeAmpersand(term) + "\"" + end);
      X.EscapedValueReads(term, end);
    }
  }

  lemma NodeTermIs(term: string, pname: string, end: string)
    ensures " " + NodeTerm(term, pname) + end
            == if T.IsBlank(term) then " " + "rdf:nodeID" + "=\"" + ("bn" + term[2..] + "\"" + end)
               else " " + pname + "=\"" + (X.EscapeAmpersand(term) + "\"" + end)
  {
    hide X.EscapeAmpersand;
    if T.IsBlank(term) {
      NodeMark();
      AttributeText(" ", "rdf:nodeID", "=\"", "bn", term[2..], "\"", end, "rdf:nodeID=\"bn");
    } else {
      assert pname + "=\"" == pname + ("=\"" + "");
      assert "" + X.EscapeAmpersand(term) == X.EscapeAmpersand(term);
      AttributeText(" ", pname, "=\"", "", X.EscapeAmpersand(term), "\"", end, pname + "=\"");
    }
  }

  lemma NodeMark()
    ensures "rdf:nodeID=\"bn" == "rdf:nodeID" + ("=\"" + "bn")
  {
  }

  lemma AttributeText(space: string, name: string, mark: string, lead: string, v: string, quote: string, end: string, all: string)
    requires all == name + (mark + lead)
    ensures space + (all + v + quote) + end == space + name + mark + (lead + v + quote + end)
  {
  }

  lemma ClosingReads(name: string, rest: string)
    ensures CloseTag(name, "</" + name + ">" + rest) == Some(rest)
  {
    var s := "</" + name + ">" + rest;
    assert s[|name| + 2..] == ">" + rest;
    X.SkipStays(">" + rest);
    assert (">" + rest)[1..] == rest;
  }

  /** Text between tags, with its closing tag. */
  lemma TextReads(name: string, a: X.Attributes, obj: string, rest: string)
    requires a != [("rdf:parseType", "Literal")]
    ensures var end := "</" + name + ">" + rest; var r := ReadContent(a, X.BuildLiteral(obj) + end);
            && CloseTag(name, end) == Some(rest)
            && (r.Some? ==> r.value.1 == end && (r.value.0.Literal? && r.value.0.text == obj ==> X.CleanText(obj)))
            && (X.CleanText(obj) && (a == [] || (|a| == 1 && (a[0].0 == "xml:lang" || a[0].0 == "rdf:datatype"))) ==>
                  r.Some? && r.value.0.Literal? && r.value.0.text == obj)
  {
    hide X.ReadText, X.BuildLiteral, X.CleanText;
    var end := "</" + name + ">" + rest;
    assert end[0] == '<';
    X.LiteralReadsIff(obj, end);
    ClosingReads(name, rest);
  }

  /** The rest of an object's element reads back as the object exactly when the object is clean. */
  lemma ObjectReadsBackIff(name: string, t: Triple, rest: string)
    ensures CleanObject(t) ==> ReadObject(name, ObjectRest(name, t) + rest) == Some((ObjectOf(t), rest))
    ensures var r := ReadObject(name, ObjectRest(name, t) + rest);
            r.Some? && r.value.0 == ObjectOf(t) ==> CleanObject(t)
  {
    hide ReadObject, ObjectRest, CleanNode, NodeOf, X.Verbatim, X.CleanText, X.Balanced;
    if t.dt == "" {
      NodeObject(name, t, rest);
    } else if t.dt == XML_LITERAL {
      MarkupObject(name, t, rest);
    } else if t.dt == STRING {
      DatatypesDiffer();
      PlainObject(name, t, rest);
    } else {
      QualifiedObject(name, t, rest);
    }
  }

  lemma NodeObject(name: string, t: Triple, rest: string)
    requires t.dt == ""
    ensures CleanNode(t.obj) ==> ReadObject(name, ObjectRest(name, t) + rest) == Some((ObjectOf(t), rest))
    ensures var r := ReadObject(name, ObjectRest(name, t) + rest);
            r.Some? && r.value.0 == ObjectOf(t) ==> CleanNode(t.obj)
  {
    hide X.ReadTag, ReadNode, ReadContent, CleanNode, NodeOf, NodeTerm;
    assert ObjectRest(name, t) + rest == " " + NodeTerm(t.obj, "rdf:resource") + ("/>" + rest);
    X.TagEnds(rest);
    NodeReads(t.obj, "rdf:resource", "/>" + rest, X.Tag([], true), rest);
    LiteralsOnly();
  }

  lemma LiteralsOnly()
    ensures forall a, s :: ReadContent(a, s).Some? ==> ReadContent(a, s).value.0.Literal?
  {
    hide X.ReadText, X.ReadMarkup;
  }

  lemma PlainObject(name: string, t: Triple, rest: string)
    requires t.dt == STRING
    ensures X.CleanText(t.obj) ==> ReadObject(name, ObjectRest(name, t) + rest) == Some((ObjectOf(t), rest))
    ensures var r := ReadObject(name, ObjectRest(name, t) + rest);
            r.Some? && r.value.0 == ObjectOf(t) ==> X.CleanText(t.obj)
  {
    hide X.ReadTag, X.BuildLiteral, X.CleanText, CloseTag, X.ReadText;
    DatatypesDiffer();
    var body := X.BuildLiteral(t.obj) + ("</" + name + ">" + rest);
    assert ObjectRest(name, t) + rest == ">" + body;
    X.TagEnds(body);
    TextReads(name, [], t.obj, rest);
  }

  /** The rest of an element with one attribute and content. */
  lemma AttributeThenContent(mark: string, v: string, body: string)
    requires X.Name(mark)
    ensures var r := X.ReadTag(" " + mark + "=\"" + (v + "\"" + (">" + body)));
            && (X.Verbatim(v) ==> r == Some((X.Tag([(mark, v)], false), body)))
            && (r.Some? ==> r.value.0.attributes != [] && r.value.0.attributes[0].0 == mark)
            && (r.Some? && r.value.0.attributes[0].1 == v ==> X.Verbatim(v))
  {
    hide X.ReadTag, X.ReadValue, X.Verbatim, X.Name;
    X.TagSteps(mark, v + "\"" + (">" + body));
    X.RawValueReads(v, ">" + body);
    X.TagEnds(body);
    assert [(mark, v)] + [] == [(mark, v)];
  }

  lemma MarkupObject(name: string, t: Triple, rest: string)
    requires t.dt == XML_LITERAL
    ensures X.Balanced(t.obj) ==> ReadObject(name, ObjectRest(name, t) + rest) == Some((ObjectOf(t), rest))
    ensures var r := ReadObject(name, ObjectRest(name, t) + rest);
            r.Some? && r.value.0 == ObjectOf(t) ==> X.Balanced(t.obj)
  {
    hide X.ReadTag, X.ReadText, X.ReadMarkup, X.Verbatim, X.Name, X.Scanned, CloseTag;
    DatatypesDiffer();
    FixedNames();
    LiteralIsVerbatim();
    var end := "</" + name + ">" + rest;
    Regrouped(" rdf:parseType=\"Literal\">", t.obj, "</", name, ">", rest);
    assert " rdf:parseType=\"Literal\">" + (t.obj + end)
        == " " + "rdf:parseType" + "=\"" + ("Literal" + "\"" + (">" + (t.obj + end)));
    AttributeThenContent("rdf:parseType", "Literal", t.obj + end);
    X.MarkupReads(X.SCAN, t.obj, name + ">" + rest);
    assert t.obj + "</" + (name + ">" + rest) == t.obj + end && "</" + (name + ">" + rest) == end;
    ClosingReads(name, rest);
    assert ObjectRest(name, t) + rest == " rdf:parseType=\"Literal\">" + (t.obj + end);
  }

  lemma LiteralIsVerbatim()
    ensures X.Verbatim("Literal")
  {
  }

  lemma Regrouped(m: string, v: string, e: string, name: string, g: string, rest: string)
    ensures m + v + e + name + g + rest == m + (v + (e + name + g + rest))
  {
  }

  lemma QualifiedText(name: string, t: Triple, mark: string, v: string, body: string, rest: string)
    requires t.dt != "" && t.dt != XML_LITERAL && t.dt != STRING
    requires mark == if t.dt == LANG_STRING then "xml:lang" else "rdf:datatype"
    requires v == if t.dt == LANG_STRING then t.language else t.dt
    requires body == X.BuildLiteral(t.obj) + ("</" + name + ">" + rest)
    ensures ObjectRest(name, t) + rest == " " + mark + "=\"" + (v + "\"" + (">" + body))
  {
    hide X.BuildLiteral;
    MarkTexts();
    Regrouped(" " + mark + "=\"" + v + "\">", X.BuildLiteral(t.obj), "</", name, ">", rest);
    QuoteEnds(" " + mark + "=\"", v, body);
  }

  lemma MarkTexts()
    ensures " " + "xml:lang" + "=\"" == " xml:lang=\"" && " " + "rdf:datatype" + "=\"" == " rdf:datatype=\""
  {
  }

  lemma QuoteEnds(open: string, v: string, body: string)
    ensures open + v + "\">" + body == open + (v + "\"" + (">" + body))
  {
  }

  lemma QualifiedObject(name: string, t: Triple, rest: string)
    requires t.dt != "" && t.dt != XML_LITERAL && t.dt != STRING
    ensures CleanObject(t) ==> ReadObject(name, ObjectRest(name, t) + rest) == Some((ObjectOf(t), rest))
    ensures var r := ReadObject(name, ObjectRest(name, t) + rest);
            r.Some? && r.value.0 == ObjectOf(t) ==> CleanObject(t)
  {
    hide ObjectRest, X.ReadTag, X.ReadText, X.ReadMarkup, X.BuildLiteral, X.Verbatim, X.CleanText, X.Name, CloseTag;
    DatatypesDiffer();
    FixedNames();
    var mark, v := if t.dt == LANG_STRING then "xml:lang" else "rdf:datatype", if t.dt == LANG_STRING then t.language else t.dt;
    assert mark[0] == (if t.dt == LANG_STRING then 'x' else 'r') && (mark[0] == 'r' ==> mark[4] == 'd');
    var end := "</" + name + ">" + rest;
    var body := X.BuildLiteral(t.obj) + end;
    QualifiedText(name, t, mark, v, body, rest);
    AttributeThenContent(mark, v, body);
    TextReads(name, [(mark, v)], t.obj, rest);
  }

  // Statements read back --------------------------------------------------------------------------------------------

  /** The prefix of a name is one, and is bound to the namespace of the property. */
  predicate Bound(b: Dictionary, a: Added) {
    && (a.prefix.None? <==> SplitName(a.triple.property).None?)
    && (a.prefix.Some? ==>
          X.NCName(a.prefix.value) && Lookup(b, a.prefix.value) == SplitName(a.triple.property).value.0)
  }

  predicate CleanProperty(uri: string) {
    SplitName(uri).Some? ==> X.NCName(SplitName(uri).value.1) && !Reserved(uri) && uri != LI
  }

  /** A triple that was refused left white space only. */
  predicate CleanAdded(a: Added) {
    a.prefix.Some? ==> CleanProperty(a.triple.property) && CleanObject(a.triple)
  }

  function Said(es: seq<Added>): seq<Statement> {
    if es == [] then []
    else if es[0].prefix.None? then Said(es[1..])
    else [Statement(es[0].triple.property, ObjectOf(es[0].triple))] + Said(es[1..])
  }

  lemma {:induction false} ColonIsAfter(prefix: string, rest: string)
    requires X.NCName(prefix)
    ensures Colon(prefix + ":" + rest) == |prefix|
  {
    forall i | 0 <= i < |prefix| ensures prefix[i] != ':' {
      assert X.NamePart(prefix[i]);
    }
    var n := Colon(prefix + ":" + rest);
    assert (prefix + ":" + rest)[|prefix|] == ':';
  }

  lemma NamesOfNames(prefix: string, local: string)
    requires X.NCName(prefix) && X.NCName(local)
    ensures X.Name(QName(prefix, local))
  {
    assert X.NameStart(prefix[0]) && QName(prefix, local)[0] == prefix[0];
    forall c | c in QName(prefix, local) ensures X.NameChar(c) {
      assert c in prefix || c == ':' || c in local;
    }
  }

  /** A prefixed name expands to its property; if its local part is no name, something shorter is read. */
  lemma NameExpands(b: Dictionary, prefix: string, local: string, after: string)
    requires X.NCName(prefix) && Lookup(b, prefix) != "" && after != "" && !X.NameChar(after[0])
    ensures X.NCName(local) ==>
              && X.ReadName(QName(prefix, local) + after) == Some((QName(prefix, local), after))
              && Expand(b, QName(prefix, local)) == Some(Lookup(b, prefix) + local)
    ensures var r := X.ReadName(QName(prefix, local) + after);
            r.Some? && Expand(b, r.value.0).Some? && !X.NCName(local) ==>
              Expand(b, r.value.0).value < Lookup(b, prefix) + local
  {
    hide X.NCName, X.Name, X.NameChar;
    var q := QName(prefix, local);
    ColonIsAfter(prefix, local);
    assert q[..|prefix|] == prefix && q[|prefix| + 1..] == local;
    if X.NCName(local) {
      NamesOfNames(prefix, local);
      X.NameReads(q, after);
    } else if X.Name(q) {
      X.NameReads(q, after);
    } else {
      X.NoNameReads(q, after);
      var r := X.ReadName(q + after);
      if r.Some? && Expand(b, r.value.0).Some? {
        ShorterName(b, prefix, local, r.value.0);
      }
    }
  }

  lemma ShorterName(b: Dictionary, prefix: string, local: string, name: string)
    requires X.NCName(prefix) && name < QName(prefix, local) && Expand(b, name).Some?
    ensures Expand(b, name).value < Lookup(b, prefix) + local
  {
    hide X.NCName;
    var n, q := Colon(name), QName(prefix, local);
    ColonIsAfter(prefix, local);
    assert q[n] == ':' && n == |prefix| by {
      assert Colon(q) == |prefix| && name[n] == q[n];
      assert |prefix| < |name| ==> name[|prefix|] == q[|prefix|] == ':';
    }
    assert name[..n] == prefix && name[n + 1..] == local[..|name| - n - 1];
    assert local == local[..|name| - n - 1] + local[|name| - n - 1..];
  }

  /** What a name is read as is the property only if the property is clean. */
  lemma ReadPropertyIff(uri: string, property: string, li: nat)
    requires uri <= property
    requires !Reserved(uri) && PropertyOf(uri, li) == property
    ensures uri == property && !Reserved(property) && property != LI
  {
    if uri == LI {
      LiIsLost(property, li);
    }
  }

  lemma LiIsLost(property: string, li: nat)
    requires LI <= property
    ensures PropertyOf(LI, li) != property
  {
    assert property[|RDF|] == LI[|RDF|] == 'l' && PropertyOf(LI, li)[|RDF|] == '_';
  }

  /** An element read before the rest of a description. */
  function StatementThen(one: Statement, more: Option<(seq<Statement>, string)>): Option<(seq<Statement>, string)> {
    var (statements, rest) :- more;
    Some(([one] + statements, rest))
  }

  lemma ElementStart(a: Added, rest: string)
    requires a.prefix.Some? && X.NCName(a.prefix.value) && SplitName(a.triple.property).Some?
    ensures var q := QName(a.prefix.value, SplitName(a.triple.property).value.1);
            var s := Concat(Lines(a)) + rest; var after := ObjectRest(q, a.triple) + rest;
            && X.Skip(s) == "<" + (q + after) && CloseTag("rdf:Description", X.Skip(s)) == None
            && after != "" && !X.NameChar(after[0])
  {
    hide NodeTerm, X.BuildLiteral, SplitName, ObjectRest, Concat, X.NCName, X.NameChar, X.Skip, CloseTag;
    var q := QName(a.prefix.value, SplitName(a.triple.property).value.1);
    var after := ObjectRest(q, a.triple) + rest;
    ConcatTwo(INDENT, ObjectElement(q, a.triple));
    assert Concat(Lines(a)) + rest == INDENT + ("<" + (q + after));
    SkipsIndent("<" + (q + after));
    StartsName(a.prefix.value, SplitName(a.triple.property).value.1, after);
    RestStarts(q, a.triple);
    assert after[0] == ObjectRest(q, a.triple)[0];
  }

  lemma StartsName(prefix: string, local: string, after: string)
    requires X.NCName(prefix)
    ensures var t := "<" + (QName(prefix, local) + after); X.Skip(t) == t && CloseTag("rdf:Description", t) == None
  {
    var t := "<" + (QName(prefix, local) + after);
    assert t[1] == prefix[0] && X.NameStart(prefix[0]);
    X.SkipStays(t);
    assert ("</" + "rdf:Description")[1] == '/';
  }

  lemma RestStarts(name: string, t: Triple)
    ensures ObjectRest(name, t) != "" && !X.NameChar(ObjectRest(name, t)[0])
  {
    hide X.BuildLiteral, NodeTerm;
    X.Delimiters();
  }

  lemma ConcatTwo(x: string, y: string)
    ensures Concat([x, y]) == x + y
  {
    assert [x, y][1..] == [y] && [y][1..] == [];
    assert Concat([y]) == y + "" == y;
  }

  lemma SkipsIndent(t: string)
    ensures X.Skip(INDENT + t) == X.Skip(t)
  {
    X.SkipsOne('\t', t);
    X.SkipsOne('\t', "\t" + t);
    X.SkipsOne('\n', ['\t'] + ("\t" + t));
    assert INDENT + t == ['\n'] + (['\t'] + ("\t" + t));
  }

  /** One statement of a description reads back exactly when it is clean, and then the reading goes on after it. */
  lemma StatementSteps(b: Dictionary, li: nat, a: Added, rest: string)
    requires Bound(b, a) && a.prefix.Some?
    ensures CleanAdded(a) ==>
              ReadStatements(b, li, Concat(Lines(a)) + rest)
              == StatementThen(Statement(a.triple.property, ObjectOf(a.triple)), ReadStatements(b, li, rest))
    ensures var r := ReadStatements(b, li, Concat(Lines(a)) + rest);
            && (r.Some? ==> r.value.0 != [])
            && (r.Some? && r.value.0[0] == Statement(a.triple.property, ObjectOf(a.triple)) ==> CleanAdded(a))
  {
    hide X.NCName, X.NameChar, X.ReadName, Expand, ReadObject, CloseTag, X.Skip, SplitName, Lookup, ObjectRest, CleanObject,
      ObjectOf, Lines, Concat, Reserved, PropertyOf, QName;
    var (namespace, local) := SplitName(a.triple.property).value;
    var q := QName(a.prefix.value, local);
    var s, after := Concat(Lines(a)) + rest, ObjectRest(q, a.triple) + rest;
    ElementStart(a, rest);
    var t := X.Skip(s);
    assert t[1..] == q + after;
    NameExpands(b, a.prefix.value, local, after);
    ObjectReadsBackIff(q, a.triple, rest);
    var r := ReadStatements(b, li, s);
    if r.Some? && r.value.0[0] == Statement(a.triple.property, ObjectOf(a.triple)) {
      var uri := Expand(b, X.ReadName(q + after).value.0).value;
      ReadPropertyIff(uri, a.triple.property, li);
    }
    if CleanAdded(a) {
      OwnProperty(a.triple.property, li);
    }
  }

  lemma OwnProperty(property: string, li: nat)
    requires property != LI
    ensures PropertyOf(property, li) == property
  {
  }

  /** The elements of one description. */
  function Written(es: seq<Added>): string {
    if es == [] then "" else Concat(Lines(es[0])) + Written(es[1..])
  }

  /** A description reads back exactly when every statement in it is clean. */
  lemma {:induction false} StatementsReadIff(b: Dictionary, es: seq<Added>, rest: string)
    requires forall a | a in es :: Bound(b, a)
    ensures var s := Written(es) + ("\n\t</rdf:Description>" + rest); var r := ReadStatements(b, 1, s);
            && ((forall a | a in es :: CleanAdded(a)) ==> r == Some((Said(es), rest)))
            && (r.Some? && r.value.0 == Said(es) ==> forall a | a in es :: CleanAdded(a))
    decreases |es|
  {
    hide ReadStatements, CleanAdded, Lines, Concat, Bound;
    var end := "\n\t</rdf:Description>" + rest;
    var s := Written(es) + end;
    if es == [] {
      assert s == end;
      DescriptionEnds(b, rest);
    } else {
      StatementsReadIff(b, es[1..], rest);
      assert es == [es[0]] + es[1..];
      var more := Written(es[1..]) + end;
      Regroup(Concat(Lines(es[0])), Written(es[1..]), end);
      assert Bound(b, es[0]);
      if es[0].prefix.None? {
        RefusedReads(b, es[0], more);
      } else {
        StatementSteps(b, 1, es[0], more);
        assert Said(es)[0] == Statement(es[0].triple.property, ObjectOf(es[0].triple)) && Said(es)[1..] == Said(es[1..]);
      }
    }
  }

  lemma Regroup(a: string, b: string, c: string)
    ensures a + b + c == a + (b + c)
  {
  }

  lemma DescriptionEnds(b: Dictionary, rest: string)
    ensures ReadStatements(b, 1, "\n\t</rdf:Description>" + rest) == Some(([], rest))
  {
    hide X.Skip, CloseTag, X.ReadName, Expand, ReadObject;
    EndIsClose(rest);
  }

  lemma EndIsClose(rest: string)
    ensures CloseTag("rdf:Description", X.Skip("\n\t</rdf:Description>" + rest)) == Some(rest)
  {
    hide X.Skip, CloseTag;
    var t := "</" + "rdf:Description" + ">" + rest;
    ClosingReads("rdf:Description", rest);
    assert "\n\t</rdf:Description>" == ['\n'] + (['\t'] + ("</" + "rdf:Description" + ">"));
    assert "\n\t</rdf:Description>" + rest == ['\n'] + (['\t'] + t);
    X.SkipsOne('\t', t);
    X.SkipsOne('\n', ['\t'] + t);
    assert t[0] == '<';
    X.SkipStays(t);
  }

  /** A refused triple leaves white space, which is skipped. */
  lemma RefusedReads(b: Dictionary, a: Added, more: string)
    requires a.prefix.None?
    ensures ReadStatements(b, 1, Concat(Lines(a)) + more) == ReadStatements(b, 1, more)
    ensures CleanAdded(a)
  {
    hide X.Skip, CloseTag, X.ReadName, ReadObject, Expand;
    assert Lines(a) == [INDENT] && [INDENT][1..] == [] && Concat([INDENT]) == INDENT + "" == INDENT;
    SkipsIndent(more);
  }

  // Descriptions read back ------------------------------------------------------------------------------------------

  /** A subject and what was added about it. */
  type Section = (string, seq<Added>)

  function Page(section: Section): string {
    "\n\t<rdf:Description " + SubjectTerm(section.0) + ">" + Written(section.1) + "\n\t</rdf:Description>"
  }

  function Pages(sections: seq<Section>): string {
    if sections == [] then "" else Page(sections[0]) + Pages(sections[1..])
  }

  function Meant(sections: seq<Section>): (r: seq<Description>)
    ensures |r| == |sections|
  {
    if sections == [] then []
    else [Description(NodeOf(sections[0].0), Said(sections[0].1))] + Meant(sections[1..])
  }

  predicate CleanSection(section: Section) {
    CleanNode(section.0) && forall a | a in section.1 :: CleanAdded(a)
  }

  predicate BoundSection(b: Dictionary, section: Section) {
    forall a | a in section.1 :: Bound(b, a)
  }

  const LAST: string := "\n</rdf:RDF>"

  function DescriptionThen(one: Description, more: Option<seq<Description>>): Option<seq<Description>> {
    var descriptions :- more;
    Some([one] + descriptions)
  }

  lemma PageStart(section: Section, rest: string)
    ensures var body := Written(section.1) + ("\n\t</rdf:Description>" + rest);
            var s := Page(section) + rest; var tag := " " + NodeTerm(section.0, "rdf:about") + (">" + body);
            && X.Skip(s) == "<rdf:Description" + tag && CloseTag("rdf:RDF", X.Skip(s)) == None
  {
    hide NodeTerm, Written;
    var body := Written(section.1) + ("\n\t</rdf:Description>" + rest);
    var tag := " " + NodeTerm(section.0, "rdf:about") + (">" + body);
    var t := "<rdf:Description" + tag;
    assert "\n\t<rdf:Description " == "\n\t" + "<rdf:Description" + " ";
    PagePieces("\n\t", "<rdf:Description", " ", NodeTerm(section.0, "rdf:about"), ">", Written(section.1), "\n\t</rdf:Description>", rest);
    assert "\n\t" + t == ['\n'] + (['\t'] + t);
    X.SkipsOne('\t', t);
    X.SkipsOne('\n', ['\t'] + t);
    assert t[0] == '<' && t[1] == 'r';
    X.SkipStays(t);
  }

  lemma PagePieces(a: string, b: string, c: string, d: string, e: string, f: string, g: string, rest: string)
    ensures a + b + c + d + e + f + g + rest == a + (b + (c + d + (e + (f + (g + rest)))))
  {
  }

  /** One description reads back exactly when it is clean, and then the reading goes on after it. */
  lemma DescriptionSteps(b: Dictionary, section: Section, rest: string)
    requires BoundSection(b, section)
    ensures CleanSection(section) ==>
              ReadDescriptions(b, Page(section) + rest)
              == DescriptionThen(Description(NodeOf(section.0), Said(section.1)), ReadDescriptions(b, rest))
    ensures var r := ReadDescriptions(b, Page(section) + rest);
            && (r.Some? ==> r.value != [])
            && (r.Some? && r.value[0] == Description(NodeOf(section.0), Said(section.1)) ==> CleanSection(section))
  {
    hide X.ReadTag, ReadStatements, X.Skip, CloseTag, CleanAdded, Bound, Written, Page, CleanNode, NodeOf, ReadNode, NodeTerm, Said;
    var body := Written(section.1) + ("\n\t</rdf:Description>" + rest);
    var tag := " " + NodeTerm(section.0, "rdf:about") + (">" + body);
    PageStart(section, rest);
    assert ("<rdf:Description" + tag)[16..] == tag;
    X.TagEnds(body);
    NodeReads(section.0, "rdf:about", ">" + body, X.Tag([], false), body);
    StatementsReadIff(b, section.1, rest);
  }

  /** Descriptions read back exactly when every one of them is clean. */
  lemma {:induction false} DescriptionsReadIff(b: Dictionary, sections: seq<Section>)
    requires forall x | x in sections :: BoundSection(b, x)
    ensures var r := ReadDescriptions(b, Pages(sections) + LAST);
            && ((forall x | x in sections :: CleanSection(x)) ==> r == Some(Meant(sections)))
            && (r == Some(Meant(sections)) ==> forall x | x in sections :: CleanSection(x))
    decreases |sections|
  {
    hide ReadDescriptions, CleanSection, Page, BoundSection;
    var s := Pages(sections) + LAST;
    if sections == [] {
      assert s == LAST;
      DocumentEnds(b);
    } else {
      DescriptionsReadIff(b, sections[1..]);
      assert sections == [sections[0]] + sections[1..];
      Regroup(Page(sections[0]), Pages(sections[1..]), LAST);
      DescriptionSteps(b, sections[0], Pages(sections[1..]) + LAST);
      assert Meant(sections)[0] == Description(NodeOf(sections[0].0), Said(sections[0].1));
      assert Meant(sections)[1..] == Meant(sections[1..]);
    }
  }

  lemma DocumentEnds(b: Dictionary)
    ensures ReadDescriptions(b, LAST) == Some([])
  {
    var t := "</rdf:RDF>";
    assert LAST == ['\n'] + t;
    X.SkipsOne('\n', t);
    X.SkipStays(t);
    assert "</" + "rdf:RDF" + ">" + "" == t;
    ClosingReads("rdf:RDF", "");
  }

  // The header read back --------------------------------------------------------------------------------------------

  function DeclarationsOf(b: Dictionary): string {
    if b == [] then "" else Declaration(b[0].0, b[0].1) + DeclarationsOf(b[1..])
  }

  /** The attributes that declare the bindings. */
  function AttributesOf(b: Dictionary): (r: X.Attributes)
    ensures |r| == |b|
  {
    if b == [] then [] else [("xmlns:" + b[0].0, b[0].1)] + AttributesOf(b[1..])
  }

  predicate CleanBinding(prefix: string, namespace: string) {
    Binding(prefix, namespace) && X.Verbatim(namespace)
  }

  /** A name that starts with "xmlns:" is a name exactly when the rest has only characters of names. */
  lemma DeclaringName(prefix: string)
    ensures X.NCName(prefix) ==> X.Name("xmlns:" + prefix)
  {
    if X.NCName(prefix) {
      var q := "xmlns:" + prefix;
      assert q[0] == 'x';
      forall c | c in q ensures X.NameChar(c) {
        assert c in "xmlns:" || c in prefix;
      }
    }
  }

  /** One declaration reads back only if its name is one and its namespace is verbatim. */
  lemma DeclarationSteps(prefix: string, namespace: string, rest: string)
    ensures CleanBinding(prefix, namespace) ==>
              X.ReadTag(Declaration(prefix, namespace) + rest) == X.TagAfter("xmlns:" + prefix, Some((namespace, rest)))
    ensures var r := X.ReadTag(Declaration(prefix, namespace) + rest);
            (&& r.Some? && r.value.0.attributes != [] && r.value.0.attributes[0] == ("xmlns:" + prefix, namespace)
             && Binding(prefix, namespace)) ==> CleanBinding(prefix, namespace)
  {
    hide X.ReadTag, X.NCName, X.Name, X.Verbatim, X.ReadValue;
    var name := "xmlns:" + prefix;
    assert Declaration(prefix, namespace) + rest == " " + name + "=\"" + (namespace + "\"" + rest);
    if X.NCName(prefix) {
      DeclaringName(prefix);
      X.TagSteps(name, namespace + "\"" + rest);
      X.RawValueReads(namespace, rest);
    }
  }

  /** What the bindings read are, the attributes were. */
  lemma {:induction false} BindingsRead(a: X.Attributes, b: Dictionary)
    requires ReadBindings(a) == Some(b)
    ensures a == AttributesOf(b) && forall e | e in b :: Binding(e.0, e.1)
    decreases |a|
  {
    if a != [] {
      BindingsRead(a[1..], b[1..]);
      assert a == [a[0]] + a[1..] && b == [b[0]] + b[1..];
      assert a[0].0 == "xmlns:" + a[0].0[6..];
    }
  }

  lemma {:induction false} AttributesRead(b: Dictionary)
    requires forall e | e in b :: Binding(e.0, e.1)
    ensures ReadBindings(AttributesOf(b)) == Some(b)
    decreases |b|
  {
    if b != [] {
      AttributesRead(b[1..]);
      assert b == [b[0]] + b[1..];
      var a := AttributesOf(b);
      assert a[1..] == AttributesOf(b[1..]) && a[0].0[6..] == b[0].0;
      assert b[0] in b;
    }
  }

  /** The header reads back as its bindings exactly when every one of them is clean. */
  lemma {:induction false} HeaderReadsIff(b: Dictionary, rest: string)
    ensures var r := X.ReadTag(DeclarationsOf(b) + (">" + rest));
            && ((forall e | e in b :: CleanBinding(e.0, e.1)) ==> r == Some((X.Tag(AttributesOf(b), false), rest)))
            && (r.Some? && r.value.0.attributes == AttributesOf(b) && (forall e | e in b :: Binding(e.0, e.1)) ==>
                  forall e | e in b :: CleanBinding(e.0, e.1))
    decreases |b|
  {
    hide X.ReadTag, Declaration, CleanBinding, Binding;
    if b == [] {
      assert DeclarationsOf(b) + (">" + rest) == ">" + rest;
      X.TagEnds(rest);
    } else {
      HeaderReadsIff(b[1..], rest);
      assert b == [b[0]] + b[1..];
      var more := DeclarationsOf(b[1..]) + (">" + rest);
      Regroup(Declaration(b[0].0, b[0].1), DeclarationsOf(b[1..]), ">" + rest);
      DeclarationSteps(b[0].0, b[0].1, more);
      assert AttributesOf(b)[0] == ("xmlns:" + b[0].0, b[0].1) && AttributesOf(b)[1..] == AttributesOf(b[1..]);
    }
  }

  lemma {:induction false} AttributesAreUnique(b: Dictionary)
    requires DistinctKeys(b)
    ensures forall i | 0 <= i < |b| :: AttributesOf(b)[i] == ("xmlns:" + b[i].0, b[i].1)
    ensures X.UniqueNames(AttributesOf(b))
    decreases |b|
  {
    if b != [] {
      assert forall i | 0 <= i < |b[1..]| :: b[1..][i] == b[i + 1];
      AttributesAreUnique(b[1..]);
      var a := AttributesOf(b);
      forall i | 0 <= i < |b| ensures a[i] == ("xmlns:" + b[i].0, b[i].1) && a[i].0[6..] == b[i].0 {
        assert i > 0 ==> a[i] == AttributesOf(b[1..])[i - 1] && b[i] == b[1..][i - 1];
      }
    }
  }

  // The document read back ------------------------------------------------------------------------------------------

  /** The subjects in the order of their first triples. */
  function Subjects(log: seq<Added>): seq<string> {
    if log == [] then []
    else
      var before, subject := Subjects(log[..|log| - 1]), log[|log| - 1].triple.subject;
      if subject in before then before else before + [subject]
  }

  /** What was added about a subject, in order. */
  function About(log: seq<Added>, subject: string): (r: seq<Added>)
    ensures forall a | a in r :: a in log && a.triple.subject == subject
  {
    if log == [] then []
    else
      var a := log[|log| - 1];
      About(log[..|log| - 1], subject) + if a.triple.subject == subject then [a] else []
  }

  function Sections(log: seq<Added>): seq<Section> {
    seq(|Subjects(log)|, i requires 0 <= i < |Subjects(log)| => (Subjects(log)[i], About(log, Subjects(log)[i])))
  }

  /** What the header binds. */
  function Bindings(prefixes: Dictionary, buffer: Dictionary): (r: Dictionary)
    ensures |r| == |buffer| && forall i | 0 <= i < |r| :: r[i] == (buffer[i].0, Lookup(prefixes, buffer[i].0))
  {
    if buffer == [] then [] else [(buffer[0].0, Lookup(prefixes, buffer[0].0))] + Bindings(prefixes, buffer[1..])
  }

  lemma {:induction false} EachIsAbout(log: seq<Added>)
    ensures forall a | a in log :: a.triple.subject in Subjects(log) && a in About(log, a.triple.subject)
    ensures forall s | s in Subjects(log) :: exists a :: a in log && a.triple.subject == s
    decreases |log|
  {
    if log != [] {
      EachIsAbout(log[..|log| - 1]);
      assert log == log[..|log| - 1] + [log[|log| - 1]];
    }
  }

  lemma {:induction false} TermsOfSubjects(log: seq<Added>)
    ensures |Terms(log)| == |Subjects(log)|
    ensures forall i | 0 <= i < |Terms(log)| :: Terms(log)[i] == SubjectTerm(Subjects(log)[i])
    decreases |log|
  {
    hide SubjectTerm;
    if log != [] {
      var front, subject := log[..|log| - 1], log[|log| - 1].triple.subject;
      TermsOfSubjects(front);
      SameMembers(front, subject);
    }
  }

  lemma SameMembers(log: seq<Added>, subject: string)
    requires |Terms(log)| == |Subjects(log)|
    requires forall i | 0 <= i < |Terms(log)| :: Terms(log)[i] == SubjectTerm(Subjects(log)[i])
    ensures SubjectTerm(subject) in Terms(log) <==> subject in Subjects(log)
  {
    hide SubjectTerm, Terms, Subjects;
    if SubjectTerm(subject) in Terms(log) {
      var i :| 0 <= i < |Terms(log)| && Terms(log)[i] == SubjectTerm(subject);
      SameTermSameSubject(Subjects(log)[i], subject);
    }
    if subject in Subjects(log) {
      var i :| 0 <= i < |Subjects(log)| && Subjects(log)[i] == subject;
      assert Terms(log)[i] == SubjectTerm(subject);
    }
  }

  lemma {:induction false} ConcatOfBoth(a: seq<string>, b: seq<string>)
    ensures Concat(a + b) == Concat(a) + Concat(b)
    decreases |a|
  {
    if a == [] {
      assert a + b == b;
    } else {
      assert (a + b)[1..] == a[1..] + b;
      ConcatOfBoth(a[1..], b);
    }
  }

  lemma {:induction false} WrittenOfBoth(a: seq<Added>, b: seq<Added>)
    ensures Written(a + b) == Written(a) + Written(b)
    decreases |a|
  {
    hide Lines, Concat;
    if a == [] {
      assert a + b == b;
    } else {
      assert (a + b)[1..] == a[1..] + b;
      WrittenOfBoth(a[1..], b);
      Regroup(Concat(Lines(a[0])), Written(a[1..]), Written(b));
    }
  }

  /** The lines kept for a subject are the elements of what was added about it. */
  lemma {:induction false} LinesAreWritten(log: seq<Added>, subject: string)
    ensures Concat(LinesOf(log, SubjectTerm(subject))) == Written(About(log, subject))
    decreases |log|
  {
    hide Lines, SubjectTerm, Concat;
    if log == [] {
      NothingIsWritten();
    } else {
      var front, a := log[..|log| - 1], log[|log| - 1];
      LinesAreWritten(front, subject);
      if SubjectTerm(a.triple.subject) == SubjectTerm(subject) {
        SameTermSameSubject(a.triple.subject, subject);
        ConcatOfBoth(LinesOf(front, SubjectTerm(subject)), Lines(a));
        WrittenOfBoth(About(front, subject), [a]);
        assert [a][1..] == [];
        assert Written([a]) == Concat(Lines(a)) + "" == Concat(Lines(a));
      } else {
        assert LinesOf(front, SubjectTerm(subject)) + [] == LinesOf(front, SubjectTerm(subject));
        assert About(front, subject) + [] == About(front, subject);
      }
    }
  }

  lemma NothingIsWritten()
    ensures Concat([]) == ""
  {
  }

  lemma {:induction false} DescriptionsArePages(g: Groups, sections: seq<Section>)
    requires |g| == |sections|
    requires forall i | 0 <= i < |g| :: g[i].0 == SubjectTerm(sections[i].0) && Concat(g[i].1) == Written(sections[i].1)
    ensures Descriptions(g) == Pages(sections)
    decreases |g|
  {
    hide SubjectTerm, Concat, Written;
    if g != [] {
      forall i | 0 <= i < |g[1..]|
        ensures g[1..][i].0 == SubjectTerm(sections[1..][i].0) && Concat(g[1..][i].1) == Written(sections[1..][i].1) {
        assert g[1..][i] == g[i + 1] && sections[1..][i] == sections[i + 1];
      }
      DescriptionsArePages(g[1..], sections[1..]);
    }
  }

  lemma BodyIsPages(log: seq<Added>)
    ensures Descriptions(GroupsOf(log)) == Pages(Sections(log))
  {
    hide SubjectTerm, Concat, Written, Descriptions, Pages, LinesOf, Terms, Subjects, About;
    TermsOfSubjects(log);
    var g, sections := GroupsOf(log), Sections(log);
    forall i | 0 <= i < |g| ensures g[i].0 == SubjectTerm(sections[i].0) && Concat(g[i].1) == Written(sections[i].1) {
      LinesAreWritten(log, Subjects(log)[i]);
    }
    DescriptionsArePages(g, sections);
  }

  /** A triple whose subject, property and object all survive. */
  predicate CleanEntry(a: Added) {
    CleanNode(a.triple.subject) && CleanAdded(a)
  }

  lemma SectionsAreClean(log: seq<Added>)
    ensures (forall x | x in Sections(log) :: CleanSection(x)) <==> forall a | a in log :: CleanEntry(a)
  {
    hide CleanNode, CleanAdded, Subjects, About;
    EachIsAbout(log);
    if forall x | x in Sections(log) :: CleanSection(x) {
      forall a | a in log ensures CleanEntry(a) {
        var i :| 0 <= i < |Subjects(log)| && Subjects(log)[i] == a.triple.subject;
        assert CleanSection(Sections(log)[i]);
      }
    }
    if forall a | a in log :: CleanEntry(a) {
      forall x | x in Sections(log) ensures CleanSection(x) {
        assert x.0 in Subjects(log) && x.1 == About(log, x.0);
      }
    }
  }

  /** Every binding of the header can be read. */
  predicate CleanHeader(b: Dictionary) {
    && Lookup(b, "rdf") == RDF
    && forall e | e in b :: CleanBinding(e.0, e.1)
  }

  lemma {:induction false} HeaderIsDeclarations(prefixes: Dictionary, buffer: Dictionary)
    requires forall e | e in buffer :: e.1 == Declaration(e.0, Lookup(prefixes, e.0))
    ensures Declarations(buffer) == DeclarationsOf(Bindings(prefixes, buffer))
    decreases |buffer|
  {
    hide Declaration, Lookup;
    if buffer != [] {
      HeaderIsDeclarations(prefixes, buffer[1..]);
      assert buffer[0] in buffer;
    }
  }

  lemma {:induction false} BindingLookup(prefixes: Dictionary, buffer: Dictionary, p: string)
    ensures Lookup(Bindings(prefixes, buffer), p) == if exists e :: e in buffer && e.0 == p then Lookup(prefixes, p) else ""
    decreases |buffer|
  {
    if buffer != [] {
      var b := Bindings(prefixes, buffer);
      assert b[1..] == Bindings(prefixes, buffer[1..]);
      BindingLookup(prefixes, buffer[1..], p);
      assert buffer == [buffer[0]] + buffer[1..];
      if buffer[0].0 == p {
        assert buffer[0] in buffer;
      }
    }
  }

  /** What a document says when it is read as it was meant. */
  function Intended(prefixes: Dictionary, buffer: Dictionary, log: seq<Added>): Contents {
    Contents(Bindings(prefixes, buffer), Meant(Sections(log)))
  }

  lemma DocumentOpens(buffer: Dictionary, g: Groups)
    ensures ReadDocument(Document(buffer, g)) == ReadRoot(Declarations(buffer) + (">" + (Descriptions(g) + LAST)))
  {
    hide Declarations, Descriptions, ReadRoot, X.Skip;
    var head := Declarations(buffer) + (">" + (Descriptions(g) + LAST));
    assert "\n" + "</rdf:RDF>" == LAST;
    Pieces(PROLOG, "\n", "<rdf:RDF", Declarations(buffer), ">", Descriptions(g), "</rdf:RDF>", LAST);
    assert Document(buffer, g) == PROLOG + ("\n" + ("<rdf:RDF" + head));
    RootFollows(head);
  }

  lemma RootFollows(head: string)
    ensures ReadDocument(PROLOG + ("\n" + ("<rdf:RDF" + head))) == ReadRoot(head)
  {
    hide ReadRoot, X.Skip;
    var t := "<rdf:RDF" + head;
    Prefixed(PROLOG, "\n" + t);
    Prefixed("<rdf:RDF", head);
    assert "\n" + t == ['\n'] + t;
    X.SkipsOne('\n', t);
    assert t[0] == '<';
    X.SkipStays(t);
  }

  lemma Prefixed(a: string, b: string)
    ensures a <= a + b && (a + b)[|a|..] == b
  {
  }

  lemma Pieces(a: string, b: string, c: string, d: string, e: string, f: string, g: string, h: string)
    requires b + g == h
    ensures a + b + c + d + e + f + b + g == a + (b + (c + (d + (e + (f + h)))))
  {
  }

  /** Names in the log are bound by the header. */
  lemma NamesAreBound(prefixes: Dictionary, buffer: Dictionary, a: Added)
    requires Declared(prefixes, buffer) && Expands(buffer, a)
    requires CleanHeader(Bindings(prefixes, buffer))
    ensures Bound(Bindings(prefixes, buffer), a)
  {
    hide X.NCName, X.Verbatim, SplitName;
    if a.prefix.Some? {
      var p, namespace := a.prefix.value, SplitName(a.triple.property).value.0;
      BoundIsListed(buffer, p);
      BindingLookup(prefixes, buffer, p);
      var e := (p, Lookup(buffer, p));
      assert e in buffer;
      SameDeclaration(p, Lookup(prefixes, p), namespace);
      var i :| 0 <= i < |buffer| && buffer[i] == e;
      assert Bindings(prefixes, buffer)[i] in Bindings(prefixes, buffer);
    }
  }

  lemma SameDeclaration(prefix: string, a: string, b: string)
    requires Declaration(prefix, a) == Declaration(prefix, b)
    ensures a == b
  {
    var n := |" xmlns:" + prefix + "=\""|;
    var d, d' := Declaration(prefix, a), Declaration(prefix, b);
    assert d[n..|d| - 1] == a && d'[n..|d'| - 1] == b;
  }

  /** The header of a document is read as its bindings exactly when it is clean, and then the body follows. */
  lemma HeaderOfDocument(prefixes: Dictionary, buffer: Dictionary, g: Groups)
    requires Declared(prefixes, buffer)
    ensures var b := Bindings(prefixes, buffer); var r := ReadDocument(Document(buffer, g));
            && (CleanHeader(b) ==> r == DocumentOf(b, ReadDescriptions(b, Descriptions(g) + LAST)))
            && (r.Some? && r.value.bindings == b ==> CleanHeader(b))
  {
    hide ReadDescriptions, X.ReadTag, Declared, CleanBinding, Binding, Document, ReadDocument, X.UniqueNames, Declarations, DeclarationsOf,
      Descriptions, AttributesOf, ReadBindings, DistinctKeys;
    var b, body := Bindings(prefixes, buffer), Descriptions(g) + LAST;
    DocumentOpens(buffer, g);
    DeclaredBindings(prefixes, buffer);
    HeaderReadsIff(b, body);
    if CleanHeader(b) {
      BindingsAreBindings(b);
      AttributesRead(b);
      AttributesAreUnique(b);
    }
    var r := ReadDocument(Document(buffer, g));
    if r.Some? && r.value.bindings == b {
      BindingsRead(X.ReadTag(DeclarationsOf(b) + (">" + body)).value.0.attributes, b);
    }
  }

  /**
   The document reads back, with the bindings of its header and every subject's statements in order, exactly when
   its namespaces can stand in attributes as they are, and every subject, property and object survives.
   */
  lemma DocumentReadsBackIff(prefixes: Dictionary, buffer: Dictionary, log: seq<Added>)
    requires Declared(prefixes, buffer) && forall a | a in log :: Expands(buffer, a)
    ensures ReadDocument(Document(buffer, GroupsOf(log))) == Some(Intended(prefixes, buffer, log))
            <==> CleanHeader(Bindings(prefixes, buffer)) && forall a | a in log :: CleanEntry(a)
  {
    hide ReadDocument, ReadDescriptions, Declared, Expands, CleanEntry, CleanHeader, Sections, GroupsOf, Meant, Bound,
      BoundSection, CleanSection;
    var b := Bindings(prefixes, buffer);
    HeaderOfDocument(prefixes, buffer, GroupsOf(log));
    if CleanHeader(b) {
      BodyIsPages(log);
      SectionsAreClean(log);
      forall a | a in log ensures Bound(b, a) {
        NamesAreBound(prefixes, buffer, a);
      }
      SectionsAreBound(b, log);
      DescriptionsReadIff(b, Sections(log));
    }
  }

  function DocumentOf(b: Dictionary, descriptions: Option<seq<Description>>): Option<Contents> {
    var ds :- descriptions;
    Some(Contents(b, ds))
  }

  lemma DeclaredBindings(prefixes: Dictionary, buffer: Dictionary)
    requires Declared(prefixes, buffer)
    ensures Declarations(buffer) == DeclarationsOf(Bindings(prefixes, buffer)) && DistinctKeys(Bindings(prefixes, buffer))
  {
    HeaderIsDeclarations(prefixes, buffer);
  }

  lemma BindingsAreBindings(b: Dictionary)
    requires CleanHeader(b)
    ensures forall e | e in b :: Binding(e.0, e.1)
  {
    hide X.NCName, X.Verbatim, Binding;
    forall e | e in b ensures Binding(e.0, e.1) {
      assert CleanBinding(e.0, e.1);
    }
  }

  lemma SectionsAreBound(b: Dictionary, log: seq<Added>)
    requires forall a | a in log :: Bound(b, a)
    ensures forall x | x in Sections(log) :: BoundSection(b, x)
  {
    hide Bound, About, Subjects;
    forall x | x in Sections(log) ensures BoundSection(b, x) {
      assert x.1 == About(log, x.0);
    }
  }

  // When a log reads back -------------------------------------------------------------------------------------------

  /** The prefix rdf has its usual meaning, and whatever else is bound to it can be. */
  predicate RdfIsBound(b: Dictionary) {
    && Lookup(b, "rdf") == RDF
    && forall e | e in b && e.1 == RDF :: CleanBinding(e.0, e.1)
  }

  /** The prefix of a triple's property can be bound to its namespace. */
  predicate CleanName(a: Added) {
    a.prefix.Some? && SplitName(a.triple.property).Some? ==>
      CleanBinding(a.prefix.value, SplitName(a.triple.property).value.0)
  }

  lemma HeaderIsCleanIff(prefixes: Dictionary, buffer: Dictionary, log: seq<Added>)
    requires Declared(prefixes, buffer) && Used(prefixes, buffer, log) && forall a | a in log :: Expands(buffer, a)
    ensures var b := Bindings(prefixes, buffer);
            CleanHeader(b) <==> RdfIsBound(b) && forall a | a in log :: CleanName(a)
  {
    hide CleanBinding, Lookup, SplitName, Declaration;
    var b := Bindings(prefixes, buffer);
    forall a | a in log && a.prefix.Some? && SplitName(a.triple.property).Some?
      ensures (a.prefix.value, SplitName(a.triple.property).value.0) in b {
      IsBound(prefixes, buffer, a);
    }
    if RdfIsBound(b) && forall a | a in log :: CleanName(a) {
      forall e | e in b ensures CleanBinding(e.0, e.1) {
        var i :| 0 <= i < |b| && b[i] == e;
        assert buffer[i] in buffer;
        if e.1 != RDF {
          var a :| a in log && a.prefix == Some(e.0);
          NamesItsBinding(prefixes, buffer, a);
        }
      }
    }
  }

  /** The prefix of a triple's property is bound to the property's namespace. */
  lemma NamesItsBinding(prefixes: Dictionary, buffer: Dictionary, a: Added)
    requires Declared(prefixes, buffer) && Expands(buffer, a) && a.prefix.Some?
    ensures SplitName(a.triple.property).Some?
    ensures Lookup(prefixes, a.prefix.value) == SplitName(a.triple.property).value.0
  {
    hide SplitName;
    var p, namespace := a.prefix.value, SplitName(a.triple.property).value.0;
    BoundIsListed(buffer, p);
    assert (p, Lookup(buffer, p)) in buffer;
    SameDeclaration(p, Lookup(prefixes, p), namespace);
  }

  lemma IsBound(prefixes: Dictionary, buffer: Dictionary, a: Added)
    requires Declared(prefixes, buffer) && Expands(buffer, a) && a.prefix.Some? && SplitName(a.triple.property).Some?
    ensures (a.prefix.value, SplitName(a.triple.property).value.0) in Bindings(prefixes, buffer)
  {
    hide SplitName;
    var p := a.prefix.value;
    NamesItsBinding(prefixes, buffer, a);
    BoundIsListed(buffer, p);
    var i :| 0 <= i < |buffer| && buffer[i] == (p, Lookup(buffer, p));
    assert Bindings(prefixes, buffer)[i] in Bindings(prefixes, buffer);
  }

  /** The same, with the condition on the header put on the triples. */
  lemma ReadsBackIff(prefixes: Dictionary, buffer: Dictionary, log: seq<Added>)
    requires Declared(prefixes, buffer) && Used(prefixes, buffer, log) && forall a | a in log :: Expands(buffer, a)
    ensures ReadDocument(Document(buffer, GroupsOf(log))) == Some(Intended(prefixes, buffer, log))
            <==> RdfIsBound(Bindings(prefixes, buffer)) && forall a | a in log :: CleanName(a) && CleanEntry(a)
  {
    hide Declared, Used, Expands, ReadDocument, Intended, RdfIsBound, CleanName, CleanEntry, CleanHeader, GroupsOf;
    DocumentReadsBackIff(prefixes, buffer, log);
    HeaderIsCleanIff(prefixes, buffer, log);
  }

  /** An allocated prefix can be bound to every namespace that can be bound at all and written as it is. */
  lemma AllocatedBindsIff(n: nat, namespace: string)
    ensures CleanBinding(Auto(n), namespace)
            <==> namespace != "" && namespace != XML && namespace != XMLNS && X.Verbatim(namespace)
  {
    hide X.Verbatim;
    DecimalIsName(n);
    assert Auto(n)[0] == 'n';
    forall c | c in Auto(n) ensures X.NamePart(c) {
      assert c == 'n' || c == 's' || c in Decimal(n);
    }
    assert "xmlns"[0] == 'x' == "xml"[0];
  }

  lemma {:induction false} DecimalIsName(n: nat)
    ensures forall c | c in Decimal(n) :: X.NamePart(c)
    decreases n
  {
    if n >= 10 {
      DecimalIsName(n / 10);
    }
  }

  // A namespace that breaks the document ----------------------------------------------------------------------------

  const QUERY: string := "http://e/?a=1&b=2#"

  /** A document whose header declares this namespace is not XML: no reader gets past the ampersand. */
  lemma QueryBreaksDocument(buffer: Dictionary, g: Groups)
    requires buffer != [] && X.NCName(buffer[0].0) && buffer[0].1 == Declaration(buffer[0].0, QUERY)
    ensures SplitName(QUERY + "p") == Some((QUERY, "p"))
    ensures ReadDocument(Document(buffer, g)) == None
  {
    hide X.ReadTag, X.NCName, ReadDocument, Descriptions, Declarations, Declaration, SplitName, Document;
    QueryIsSplit();
    DocumentOpens(buffer, g);
    FirstDeclaration(buffer, ">" + (Descriptions(g) + LAST));
  }

  lemma FirstDeclaration(buffer: Dictionary, rest: string)
    requires buffer != [] && X.NCName(buffer[0].0) && buffer[0].1 == Declaration(buffer[0].0, QUERY)
    ensures X.ReadTag(Declarations(buffer) + rest) == None
  {
    hide X.ReadTag, X.ReadValue, X.Name, X.NCName;
    var p, more := buffer[0].0, Declarations(buffer[1..]) + rest;
    DeclaringName(p);
    QueryIsNoValue(more);
    QueryDeclared(p, QUERY, Declarations(buffer[1..]), rest);
    X.TagSteps("xmlns:" + p, QUERY + "\"" + more);
  }

  lemma QueryDeclared(p: string, namespace: string, others: string, rest: string)
    ensures Declaration(p, namespace) + others + rest == " " + ("xmlns:" + p) + "=\"" + (namespace + "\"" + (others + rest))
  {
    assert " xmlns:" == " " + "xmlns:";
  }

  lemma QueryIsSplit()
    ensures SplitName(QUERY + "p") == Some((QUERY, "p"))
  {
    var uri := QUERY + "p";
    assert uri[..|uri| - 1] == QUERY;
    assert LocalStart(QUERY) == |QUERY|;
    assert LocalStart(uri) == |QUERY|;
    assert uri[..|QUERY|] == QUERY && uri[|QUERY|..] == "p";
  }

  lemma QueryIsNoValue(more: string)
    ensures X.ReadValue(QUERY + "\"" + more) == None
  {
    hide X.ReadValue, X.Verbatim;
    var after := "b=2#\"" + more;
    UnknownReference(after);
    PlainStart();
    NoValueBefore("http://e/?a=1", "&" + after);
    assert QUERY + "\"" + more == "http://e/?a=1" + ("&" + after);
  }

  lemma PlainStart()
    ensures X.Verbatim("http://e/?a=1")
  {
  }

  lemma UnknownReference(after: string)
    requires after != "" && after[0] == 'b'
    ensures X.ReadValue("&" + after) == None
  {
    assert ("&" + after)[1..] == after;
    assert X.Reference(after) == None;
  }

  lemma {:induction false} NoValueBefore(v: string, rest: string)
    requires X.Verbatim(v) && X.ReadValue(rest) == None
    ensures X.ReadValue(v + rest) == None
    decreases |v|
  {
    if v == "" {
      assert v + rest == rest;
    } else {
      NoValueBefore(v[1..], rest);
      assert v + rest == [v[0]] + (v[1..] + rest);
      X.ValueSteps(v[0], v[1..] + rest);
    }
  }
}
