/**
 RDF graphs as sets of statements: which statements are tied together by blank nodes, the set of
 statements an edit has to move, and graph isomorphism (section 3.6 of RDF 1.1 Concepts).
 */
module Graphs {
  import opened RdfText

  type Graph = set<Statement>

  /** One statement's blank subject is the other's object, or the other way round. */
  predicate Linked(a: Statement, b: Statement) {
    || (a.subject.Blank? && b.obj == a.subject)
    || (a.obj.Blank? && b.subject == a.obj)
  }

  /** A chain of linked statements; all but the first belong to `g`. */
  ghost predicate Chain(g: Graph, path: seq<Statement>) {
    && path != []
    && (forall i | 1 <= i < |path| :: path[i] in g && Linked(path[i - 1], path[i]))
  }

  ghost predicate ChainFromTo(g: Graph, path: seq<Statement>, a: Statement, b: Statement) {
    Chain(g, path) && path[0] == a && path[|path| - 1] == b
  }

  ghost predicate Connected(g: Graph, a: Statement, b: Statement) {
    exists path :: ChainFromTo(g, path, a, b)
  }

  ghost predicate Closed(c: Graph, g: Graph) {
    forall a, b | a in c && b in g && Linked(a, b) :: b in c
  }

  /** The statements of two graphs that are tied to a difference between them. */
  ghost function Moved(stored: Graph, revised: Graph): Graph {
    set x | x in stored + revised && Reached(stored + revised, (stored - revised) + (revised - stored), x)
  }

  ghost predicate Reached(g: Graph, seeds: Graph, x: Statement) {
    exists seed | seed in seeds :: Connected(g, seed, x)
  }

  // Chains ------------------------------------------------------------------------------------------

  lemma ConnectedSelf(g: Graph, a: Statement)
    ensures Connected(g, a, a)
  {
    assert ChainFromTo(g, [a], a, a);
  }

  lemma ConnectedStep(g: Graph, a: Statement, b: Statement)
    requires Linked(a, b) && b in g
    ensures Connected(g, a, b)
  {
    assert ChainFromTo(g, [a, b], a, b);
  }

  lemma ConnectedTransitive(g: Graph, a: Statement, b: Statement, c: Statement)
    requires Connected(g, a, b) && Connected(g, b, c)
    ensures Connected(g, a, c)
  {
    var p :| ChainFromTo(g, p, a, b);
    var q :| ChainFromTo(g, q, b, c);
    assert ChainFromTo(g, p + q[1..], a, c);
  }

  lemma ConnectedIn(g: Graph, bigger: Graph, a: Statement, b: Statement)
    requires g <= bigger && Connected(g, a, b)
    ensures Connected(bigger, a, b)
  {
    var p :| ChainFromTo(g, p, a, b);
    assert ChainFromTo(bigger, p, a, b);
  }

  lemma ConnectedSymmetric(g: Graph, a: Statement, b: Statement)
    requires a in g && Connected(g, a, b)
    ensures Connected(g, b, a)
  {
    var p :| ChainFromTo(g, p, a, b);
    var q := seq(|p|, i requires 0 <= i < |p| => p[|p| - 1 - i]);
    forall i | 1 <= i < |q| ensures q[i] in g && Linked(q[i - 1], q[i]) {
      assert Linked(p[|p| - 1 - i], p[|p| - i]);
    }
    assert ChainFromTo(g, q, b, a);
  }

  /** A closed set contains whatever is connected to one of its members. */
  lemma {:induction false} ClosedHoldsChains(c: Graph, g: Graph, path: seq<Statement>)
    requires Closed(c, g) && Chain(g, path) && path[0] in c
    ensures path[|path| - 1] in c
  {
    if |path| > 1 {
      var init := path[..|path| - 1];
      assert Chain(g, init);
      ClosedHoldsChains(c, g, init);
      assert Linked(path[|path| - 2], path[|path| - 1]);
    }
  }

  lemma ClosedHoldsConnected(c: Graph, g: Graph, a: Statement, b: Statement)
    requires Closed(c, g) && a in c && Connected(g, a, b)
    ensures b in c
  {
    var p :| ChainFromTo(g, p, a, b);
    ClosedHoldsChains(c, g, p);
  }

  // What the moved statements satisfy ---------------------------------------------------------------

  lemma MovedHoldsDifference(stored: Graph, revised: Graph)
    ensures (stored - revised) + (revised - stored) <= Moved(stored, revised)
  {
    forall x | x in (stored - revised) + (revised - stored) ensures x in Moved(stored, revised) {
      ConnectedSelf(stored + revised, x);
    }
  }

  lemma MovedIsClosed(stored: Graph, revised: Graph)
    ensures Closed(Moved(stored, revised), stored + revised)
  {
    var g, m := stored + revised, Moved(stored, revised);
    forall a, b | a in m && b in g && Linked(a, b) ensures b in m {
      var seed :| seed in (stored - revised) + (revised - stored) && Connected(g, seed, a);
      ConnectedStep(g, a, b);
      ConnectedTransitive(g, seed, a, b);
    }
  }

  /** Both sides of the edit are closed: no statement left in place is linked to a moved one. */
  lemma BothSidesClosed(stored: Graph, revised: Graph)
    ensures Closed(Moved(stored, revised) * stored, stored)
    ensures Closed(Moved(stored, revised) * revised, revised)
  {
    MovedIsClosed(stored, revised);
  }

  /** Deleting and re-adding the moved statements turns the stored graph into the revised one. */
  lemma Conservation(stored: Graph, revised: Graph)
    ensures var removed, added := Moved(stored, revised) * stored, Moved(stored, revised) * revised;
            && removed <= stored
            && added <= revised
            && added * stored <= removed
            && removed * revised <= added
            && (stored - removed) + added == revised
            && (stored - removed) !! added
  {
    MovedHoldsDifference(stored, revised);
  }

  /** A set holding the differences, closed and with nothing unreached, is the moved set. */
  lemma MovedIsTheOnlyOne(stored: Graph, revised: Graph, m: Graph)
    requires (stored - revised) + (revised - stored) <= m <= stored + revised
    requires Closed(m, stored + revised)
    requires forall x | x in m :: Reached(stored + revised, (stored - revised) + (revised - stored), x)
    ensures m == Moved(stored, revised)
  {
    forall x | x in Moved(stored, revised) ensures x in m {
      var seed :| seed in (stored - revised) + (revised - stored) && Connected(stored + revised, seed, x);
      ClosedHoldsConnected(m, stored + revised, seed, x);
    }
  }
}
