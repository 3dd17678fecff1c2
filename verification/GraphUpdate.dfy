/**
 What applying a submitted update does. DELETE removes exactly the removed statements and INSERT adds
 the added ones under fresh blank nodes (section 3.1.3 of SPARQL 1.1 Update). The result is compared
 with the revised graph up to isomorphism (section 3.6 of RDF 1.1 Concepts).
 */
module GraphUpdate {
  import opened RdfText
  import opened Graphs
  import opened Renamings

  function Updated(stored: Graph, removed: Graph, added: Graph, fresh_: Renaming): Graph {
    (stored - removed) + Rename(added, fresh_)
  }

  /** Whatever fresh labels the store picks, the update submitted for a form yields its revised graph. */
  ghost predicate Rebuilds(stored: Graph, revised: Graph) {
    var removed, added := Moved(stored, revised) * stored, Moved(stored, revised) * revised;
    forall m | Fresh(m, stored, added) :: Isomorphic(revised, Updated(stored, removed, added, m))
  }

  /** Any two statements that share a blank node are joined by a chain of links. */
  ghost predicate HoldsTogether(g: Graph) {
    forall a, b | a in g && b in g && BlanksOf(a) * BlanksOf(b) != {} :: Connected(g, a, b)
  }

  // The submitted update ------------------------------------------------------------------------------

  /**
   For every stored and revised graph: the update rebuilds the revised graph, whatever fresh labels the
   store picks, exactly when no blank node occurs both in a statement left in place and in an added one.
   */
  lemma RebuildsIffNothingShared(stored: Graph, revised: Graph)
    ensures var removed, added := Moved(stored, revised) * stored, Moved(stored, revised) * revised;
            Rebuilds(stored, revised) <==> Blanks(stored - removed) !! Blanks(added)
  {
    var removed, added := Moved(stored, revised) * stored, Moved(stored, revised) * revised;
    var kept := stored - removed;
    Conservation(stored, revised);
    if Blanks(kept) !! Blanks(added) {
      forall m | Fresh(m, stored, added) ensures Isomorphic(revised, Updated(stored, removed, added, m)) {
        DisjointRebuilds(stored, kept, added, m);
      }
    }
    if Rebuilds(stored, revised) {
      var m := FreshRenaming(stored, added);
      assert Isomorphic(revised, Updated(stored, removed, added, m));
      RebuildsDisjoint(stored, kept, added, m);
    }
  }

  /**
   A revised form is safe against every possible stored graph exactly when its blank nodes hold its
   statements together.
   */
  lemma SafeIffHoldsTogether(revised: Graph)
    ensures (forall stored :: Rebuilds(stored, revised)) <==> HoldsTogether(revised)
  {
    if HoldsTogether(revised) {
      forall stored ensures Rebuilds(stored, revised) {
        TogetherRebuilds(stored, revised);
      }
    } else {
      var a, b :| a in revised && b in revised && BlanksOf(a) * BlanksOf(b) != {} && !Connected(revised, a, b);
      var stored := ApartBreaks(revised, a, b);
    }
  }

  lemma TogetherRebuilds(stored: Graph, revised: Graph)
    requires HoldsTogether(revised)
    ensures Rebuilds(stored, revised)
  {
    var removed, added := Moved(stored, revised) * stored, Moved(stored, revised) * revised;
    Conservation(stored, revised);
    BothSidesClosed(stored, revised);
    if id :| id in Blanks(stored - removed) && id in Blanks(added) {
      var k :| k in stored - removed && id in BlanksOf(k);
      var a :| a in added && id in BlanksOf(a);
      assert id in BlanksOf(a) * BlanksOf(k);
      ClosedHoldsConnected(added, revised, a, k);
      assert false;
    }
    RebuildsIffNothingShared(stored, revised);
  }

  /** A stored graph that lacks just the statements connected to `a` separates `a` from `b`. */
  lemma ApartBreaks(revised: Graph, a: Statement, b: Statement) returns (stored: Graph)
    requires a in revised && b in revised && BlanksOf(a) * BlanksOf(b) != {} && !Connected(revised, a, b)
    ensures !Rebuilds(stored, revised)
  {
    var part := set x | x in revised && Connected(revised, a, x);
    stored := revised - part;
    assert stored + revised == revised && (stored - revised) + (revised - stored) == part;
    forall x, y | x in part && y in revised && Linked(x, y) ensures y in part {
      ConnectedStep(revised, x, y);
      ConnectedTransitive(revised, a, x, y);
    }
    forall x | x in part ensures Reached(revised, part, x) {
      ConnectedSelf(revised, x);
    }
    MovedIsTheOnlyOne(stored, revised, part);
    ConnectedSelf(revised, a);
    var id :| id in BlanksOf(a) * BlanksOf(b);
    assert id in Blanks(part * revised) && id in Blanks(stored - part * stored);
    RebuildsIffNothingShared(stored, revised);
  }

  /** Every blank subject is also an object. */
  ghost predicate SubjectsIntroduced(g: Graph) {
    forall a | a in g && a.subject.Blank? :: exists o | o in g :: o.obj == a.subject
  }

  /** A blank node that is never a subject is the object of one statement only. */
  ghost predicate LeavesUnshared(g: Graph) {
    forall a, b | a in g && b in g && a.obj.Blank? && a.obj == b.obj && a != b ::
      exists s | s in g :: s.subject == a.obj
  }

  /** A sufficient condition that can be read off the form. */
  lemma IntroducedHoldsTogether(g: Graph)
    requires SubjectsIntroduced(g) && LeavesUnshared(g)
    ensures HoldsTogether(g)
  {
    hide Connected, BlanksOf, SubjectsIntroduced, LeavesUnshared;
    forall a, b | a in g && b in g && BlanksOf(a) * BlanksOf(b) != {} ensures Connected(g, a, b) {
      var id :| id in BlanksOf(a) * BlanksOf(b);
      BlankIsThere(a, id);
      BlankIsThere(b, id);
      SharersHoldTogether(g, a, b, Blank(id));
    }
  }

  lemma BlankIsThere(a: Statement, id: string)
    requires id in BlanksOf(a)
    ensures a.subject == Blank(id) || a.obj == Blank(id)
  {
  }

  lemma SharersHoldTogether(g: Graph, a: Statement, b: Statement, x: Term)
    requires SubjectsIntroduced(g) && LeavesUnshared(g) && a in g && b in g && x.Blank?
    requires (a.subject == x || a.obj == x) && (b.subject == x || b.obj == x)
    ensures Connected(g, a, b)
  {
    hide Connected;
    if s :| s in g && s.subject == x {
      var o :| o in g && o.obj == x;
      ReachesIntroduction(g, a, s, o, x);
      ReachesIntroduction(g, b, s, o, x);
      ConnectedSymmetric(g, b, o);
      ConnectedTransitive(g, a, o, b);
    } else {
      assert a.obj == x && b.obj == x;
      ConnectedSelf(g, a);
    }
  }

  lemma ReachesIntroduction(g: Graph, a: Statement, s: Statement, o: Statement, x: Term)
    requires a in g && s in g && o in g && x.Blank?
    requires s.subject == x && o.obj == x && (a.subject == x || a.obj == x)
    ensures Connected(g, a, o)
  {
    if a.subject == x {
      ConnectedStep(g, a, o);
    } else {
      ConnectedStep(g, a, s);
      ConnectedStep(g, s, o);
      ConnectedTransitive(g, a, s, o);
    }
  }

  /**
   The condition is needed: adding a second statement with the same never-described blank object makes
   the update split that blank node in two.
   */
  lemma SharedLeafIsSplit()
    ensures var p, q := Statement(Iri("x"), Iri("p"), Blank("1")), Statement(Iri("x"), Iri("q"), Blank("1"));
            SubjectsIntroduced({p, q}) && !Rebuilds({p}, {p, q})
  {
    var p, q := Statement(Iri("x"), Iri("p"), Blank("1")), Statement(Iri("x"), Iri("q"), Blank("1"));
    assert p != q by { assert p.property.iri[0] != q.property.iri[0]; }
    var g := {p, q};
    assert {p} + g == g && ({p} - g) + (g - {p}) == {q};
    ConnectedSelf(g, q);
    MovedIsTheOnlyOne({p}, g, {q});
    assert Moved({p}, g) * {p} == {} && Moved({p}, g) * g == {q};
    assert "1" in BlanksOf(p) && "1" in BlanksOf(q);
    assert "1" in Blanks({p} - {}) && "1" in Blanks({q});
    RebuildsIffNothingShared({p}, g);
  }
}
