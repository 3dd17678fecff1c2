/** The serializer object: its bound prefixes, the declarations of its header, and the elements of each subject. */
module RdfXmlSerializer {
  import opened Helpers
  import opened RdfXml

  import R = RdfXmlReader

  class Serializer {
    var prefixes: Dictionary
    var prefixBuffer: Dictionary
    var prefixId: nat
    var subjectBuffer: Groups
    ghost var log: seq<Added>

    ghost predicate Valid()
      reads this
    {
      && Declared(prefixes, prefixBuffer)
      && (forall a | a in log :: Expands(prefixBuffer, a))
      && subjectBuffer == GroupsOf(log)
    }

    ghost predicate AllUsed()
      reads this
    {
      Used(prefixes, prefixBuffer, log)
    }

    constructor (prefixes: Dictionary)
      ensures Valid() && this.prefixes == prefixes && log == [] && AllUsed()
    {
      this.prefixes, prefixBuffer, prefixId, subjectBuffer, log := prefixes, [], 0, [], [];
    }

    /** Binds the prefixes that are not bound yet. */
    method SetMappings(mappings: Dictionary)
      requires Valid()
      modifies this`prefixes
      ensures Valid() && (old(AllUsed()) ==> AllUsed())
      ensures forall p | Lookup(old(prefixes), p) != "" :: Lookup(prefixes, p) == Lookup(old(prefixes), p)
      ensures forall m | m in mappings :: Lookup(prefixes, m.0) != "" || m.1 == ""
    {
      hide Declared, Expands, GroupsOf, Used;
      var i := 0;
      while i < |mappings|
        invariant 0 <= i <= |mappings|
        invariant forall p | Lookup(old(prefixes), p) != "" :: Lookup(prefixes, p) == Lookup(old(prefixes), p)
        invariant forall j | 0 <= j < i :: Lookup(prefixes, mappings[j].0) != "" || mappings[j].1 == ""
      {
        if Lookup(prefixes, mappings[i].0) == "" {
          PutOnlyThere(prefixes, mappings[i].0, mappings[i].1);
          prefixes := Put(prefixes, mappings[i].0, mappings[i].1);
        }
        i := i + 1;
      }
      DeclaredKept(old(prefixes), prefixes, prefixBuffer);
      if old(AllUsed()) {
        UsedKept(old(prefixes), prefixes, prefixBuffer, prefixBuffer, log, log, "");
      }
    }

    /** A prefix bound to the namespace, declared in the header; a new one captures no prefix that is bound. */
    method BuildPrefix(namespace: string) returns (result: string)
      requires Valid() && namespace != ""
      modifies this`prefixes, this`prefixBuffer, this`prefixId
      ensures Valid()
      ensures result != "" && Lookup(prefixes, result) == namespace
      ensures Lookup(prefixBuffer, result) == Declaration(result, namespace)
      ensures forall e | e in prefixBuffer :: e.0 == result || e in old(prefixBuffer)
      ensures forall p | Lookup(old(prefixes), p) != "" :: Lookup(prefixes, p) == Lookup(old(prefixes), p)
      ensures forall p | Lookup(old(prefixBuffer), p) != "" :: Lookup(prefixBuffer, p) == Lookup(old(prefixBuffer), p)
      ensures FirstPrefix(old(prefixes), old(prefixes), namespace) != "" ==>
                prefixes == old(prefixes) && result == FirstPrefix(prefixes, prefixes, namespace)
      ensures FirstPrefix(old(prefixes), old(prefixes), RDF) != "" ==>
                FirstPrefix(prefixes, prefixes, RDF) == FirstPrefix(old(prefixes), old(prefixes), RDF)
    {
      hide Declaration, Declared, Expands, GroupsOf;
      result := FindPrefix(namespace);
      if result == "" {
        result := AllocatePrefix(namespace);
      }
      DeclaredKept(old(prefixes), prefixes, prefixBuffer);
      DeclareOne(prefixes, prefixBuffer, result);
      prefixBuffer := Put(prefixBuffer, result, Declaration(result, namespace));
      ExpandsStill(log, old(prefixBuffer), prefixBuffer);
    }

    method FindPrefix(namespace: string) returns (result: string)
      ensures result == FirstPrefix(prefixes, prefixes, namespace)
    {
      result := "";
      var i := 0;
      while i < |prefixes|
        invariant 0 <= i <= |prefixes| && result == ""
        invariant FirstPrefix(prefixes[i..], prefixes, namespace) == FirstPrefix(prefixes, prefixes, namespace)
      {
        assert prefixes[i..][1..] == prefixes[i + 1..];
        if prefixes[i].0 != "" && Lookup(prefixes, prefixes[i].0) == namespace {
          return prefixes[i].0;
        }
        i := i + 1;
      }
    }

    method AllocatePrefix(namespace: string) returns (result: string)
      requires namespace != ""
      modifies this`prefixes, this`prefixId
      ensures result == Auto(prefixId) && Lookup(old(prefixes), result) == "" && Lookup(prefixes, result) == namespace
      ensures forall p | p != result :: Lookup(prefixes, p) == Lookup(old(prefixes), p)
      ensures namespace != RDF ==> FirstPrefix(prefixes, prefixes, RDF) == FirstPrefix(old(prefixes), old(prefixes), RDF)
    {
      hide Auto, Put, FirstPrefix;
      while Lookup(prefixes, Auto(prefixId)) != ""
        invariant prefixes == old(prefixes)
        decreases |Taken(prefixes, prefixId)|
      {
        NextIsFewer(prefixes, prefixId);
        prefixId := prefixId + 1;
      }
      result := Auto(prefixId);
      PutOnlyThere(prefixes, result, namespace);
      if namespace != RDF {
        FirstPrefixKept(prefixes, prefixes, Put(prefixes, result, namespace), RDF, result, namespace);
      }
      prefixes := Put(prefixes, result, namespace);
    }

    /** The element goes to the subject's group. A property without a local name is refused, but the indent stays. */
    method AddTriple(t: Triple) returns (ok: bool)
      requires Valid()
      modifies this
      ensures Valid() && (old(AllUsed()) ==> AllUsed())
      ensures ok <==> exists namespace, local :: HasName(t.property, namespace, local)
      ensures |log| == |old(log)| + 1 && log[..|old(log)|] == old(log) && log[|old(log)|].triple == t
      ensures forall p | Lookup(old(prefixes), p) != "" :: Lookup(prefixes, p) == Lookup(old(prefixes), p)
      ensures FirstPrefix(old(prefixes), old(prefixes), RDF) == "rdf" ==> FirstPrefix(prefixes, prefixes, RDF) == "rdf"
    {
      hide Declared, GroupsOf, Lookup, Declaration, ObjectElement, SubjectTerm, FirstPrefix, Used, HasName;
      SplitNameWhenNamed();
      var term := SubjectTerm(t.subject);
      var name := SplitName(t.property);
      ghost var a;
      if name.None? {
        a := Added(t, None);
        subjectBuffer := Append(subjectBuffer, term, [INDENT]);
        ok := false;
      } else {
        ghost var groups := subjectBuffer;
        var prefix := BuildPrefix(name.value.0);
        a := Added(t, Some(prefix));
        subjectBuffer := Append(subjectBuffer, term, [INDENT, ObjectElement(QName(prefix, name.value.1), t)]);
        ok := true;
      }
      AppendGroups(log, a);
      log := log + [a];
      if old(AllUsed()) {
        assert a in log;
        UsedKept(old(prefixes), prefixes, old(prefixBuffer), prefixBuffer, old(log), log, if a.prefix.Some? then a.prefix.value else "");
      }
    }

    /**
     The document describes every subject once, in order, and declares every prefix that is used. Read as RDF/XML
     it says what was added exactly when its prefixes, namespaces, subjects, properties and objects are clean.
     */
    method ToString(triples: seq<Triple>) returns (r: Option<string>)
      requires Valid()
      modifies this
      ensures Valid() && (old(AllUsed()) ==> AllUsed())
      ensures r.Some? <==> forall t | t in triples :: exists namespace, local :: HasName(t.property, namespace, local)
      ensures r.Some? ==> r.value == Document(prefixBuffer, GroupsOf(log))
      ensures r.Some? ==> |log| == |old(log)| + |triples| && log[..|old(log)|] == old(log)
      ensures r.Some? ==> forall i | 0 <= i < |triples| :: log[|old(log)| + i].triple == triples[i]
      ensures r.Some? && FirstPrefix(old(prefixes), old(prefixes), RDF) == "rdf" ==>
                Lookup(prefixBuffer, "rdf") == Declaration("rdf", RDF)
      ensures r.Some? && old(AllUsed()) ==>
                (R.ReadDocument(r.value) == Some(R.Intended(prefixes, prefixBuffer, log))
                 <==> R.RdfIsBound(R.Bindings(prefixes, prefixBuffer)) && forall a | a in log :: R.CleanName(a) && R.CleanEntry(a))
    {
      hide Declared, GroupsOf, Lookup, SplitName, Expands, FirstPrefix, Used, Declaration, R.ReadDocument, R.Intended,
        R.RdfIsBound, R.CleanName, R.CleanEntry, Document, HasName;
      SplitNameWhenNamed();
      var i := 0;
      while i < |triples|
        invariant 0 <= i <= |triples| && Valid() && (old(AllUsed()) ==> AllUsed())
        invariant |log| == |old(log)| + i && log[..|old(log)|] == old(log)
        invariant FirstPrefix(old(prefixes), old(prefixes), RDF) == "rdf" ==> FirstPrefix(prefixes, prefixes, RDF) == "rdf"
        invariant forall j | 0 <= j < i :: log[|old(log)| + j].triple == triples[j] && SplitName(triples[j].property).Some?
      {
        var ok := AddTriple(triples[i]);
        if !ok {
          assert triples[i] in triples;
          return None;
        }
        i := i + 1;
      }
      r := Write();
    }

    method Write() returns (r: Option<string>)
      requires Valid()
      modifies this`prefixes, this`prefixBuffer, this`prefixId
      ensures Valid() && (old(AllUsed()) ==> AllUsed())
      ensures r == Some(Document(prefixBuffer, GroupsOf(log)))
      ensures FirstPrefix(old(prefixes), old(prefixes), RDF) == "rdf" ==> Lookup(prefixBuffer, "rdf") == Declaration("rdf", RDF)
      ensures old(AllUsed()) ==>
                (R.ReadDocument(r.value) == Some(R.Intended(prefixes, prefixBuffer, log))
                 <==> R.RdfIsBound(R.Bindings(prefixes, prefixBuffer)) && forall a | a in log :: R.CleanName(a) && R.CleanEntry(a))
    {
      hide Declared, GroupsOf, Lookup, Expands, FirstPrefix, Used, Declaration, R.ReadDocument, R.Intended,
        R.RdfIsBound, R.CleanName, R.CleanEntry, Document;
      var prefix := BuildPrefix(RDF);
      var text := Print();
      r := Some(text);
      if old(AllUsed()) {
        UsedKept(old(prefixes), prefixes, old(prefixBuffer), prefixBuffer, log, log, prefix);
        R.ReadsBackIff(prefixes, prefixBuffer, log);
      }
    }

    method Print() returns (text: string)
      ensures text == Document(prefixBuffer, subjectBuffer)
    {
      hide Declarations, Descriptions, Concat;
      text := "<?xml version=\"1.0\" encoding=\"UTF-8\"?>" + "\n" + "<rdf:RDF";
      ghost var start := text;
      var declared := PrintDeclarations();
      var described := PrintDescriptions();
      text := text + declared + ">" + described + "\n" + "</rdf:RDF>";
    }

    method PrintDeclarations() returns (text: string)
      ensures text == Declarations(prefixBuffer)
    {
      text := "";
      var i := 0;
      while i < |prefixBuffer|
        invariant 0 <= i <= |prefixBuffer| && text == Declarations(prefixBuffer[..i])
      {
        DeclarationsOfBoth(prefixBuffer[..i], [prefixBuffer[i]]);
        assert prefixBuffer[..i + 1] == prefixBuffer[..i] + [prefixBuffer[i]];
        assert Declarations([prefixBuffer[i]]) == prefixBuffer[i].1;
        text := text + prefixBuffer[i].1;
        i := i + 1;
      }
      assert prefixBuffer[..i] == prefixBuffer;
    }

    method PrintDescriptions() returns (text: string)
      ensures text == Descriptions(subjectBuffer)
    {
      hide Concat;
      text := "";
      var i := 0;
      while i < |subjectBuffer|
        invariant 0 <= i <= |subjectBuffer| && text == Descriptions(subjectBuffer[..i])
      {
        var g := subjectBuffer[i];
        DescriptionsOfBoth(subjectBuffer[..i], [g]);
        assert subjectBuffer[..i + 1] == subjectBuffer[..i] + [g];
        var one := "\n\t<rdf:Description " + g.0 + ">" + Concat(g.1) + "\n\t</rdf:Description>";
        assert Descriptions([g]) == one + "" == one by { assert [g][1..] == []; }
        text := text + one;
        i := i + 1;
      }
      assert subjectBuffer[..i] == subjectBuffer;
    }
  }
}
