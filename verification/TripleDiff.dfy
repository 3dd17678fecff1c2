/**
 The diff between the stored and the revised triples of a form, and the closure of both sides over
 blank nodes. Triple maps are objects keyed by the printed line of each triple.
 */
module TripleDiff {
  import opened Helpers

  import opened RdfText
  import opened Graphs
  import opened UpdateText

  type Entries = map<string, Triple>

  class TripleMap {
    var entries: Entries

    constructor ()
      ensures entries == map[]
    {
      entries := map[];
    }
  }

  /** Every triple sits under its own line. */
  predicate Keyed(m: Entries) {
    forall k | k in m :: Writable(m[k]) && TripleText(m[k]) == k
  }

  lemma KeyedStatements(a: Entries, b: Entries)
    requires Keyed(a) && Keyed(b)
    ensures forall j, k | j in a && k in b :: j == k <==> StatementOf(a[j]) == StatementOf(b[k])
  {
    forall j, k | j in a && k in b ensures j == k <==> StatementOf(a[j]) == StatementOf(b[k]) {
      SameTextIffSameStatement(a[j], b[k]);
    }
  }

  // One search through a store ----------------------------------------------------------------------

  /** `d` has grown into `d'` by entries of the store. */
  ghost predicate Grown(d: Entries, d': Entries, store: Entries) {
    && d.Keys <= d'.Keys
    && (forall k | k in d :: d'[k] == d[k])
    && (forall k | k in d' && k !in d :: k in store && d'[k] == store[k])
  }

  /** `c'` is `c` plus the entries by which `d` has grown into `d'`. */
  ghost predicate Copied(d: Entries, d': Entries, c: Entries, c': Entries) {
    && (forall k :: k in c' <==> k in c || (k in d' && k !in d))
    && (forall k | k in d' && k !in d :: c'[k] == d'[k])
    && (forall k | k in c && !(k in d' && k !in d) :: c'[k] == c[k])
  }

  /** Everything in the store linked to `t` is already in `d`. */
  ghost predicate Complete(t: Triple, store: Entries, d: Entries) {
    forall k | k in store && Linked(StatementOf(t), StatementOf(store[k])) :: k in d
  }

  /**
   Describing `t` has grown `d` into `d'` by triples of the store, and `c` into `c'` by the same ones;
   each of them is connected to `t` and has its own links taken in.
   */
  ghost predicate Extended(t: Triple, store: Entries, d: Entries, c: Entries, d': Entries, c': Entries) {
    && Grown(d, d', store)
    && Copied(d, d', c, c')
    && forall k | k in d' && k !in d ::
         && Complete(d'[k], store, d')
         && Connected(StatementsOf(store), StatementOf(t), StatementOf(d'[k]))
  }

  predicate BringsSubject(t: Triple, n: Triple) {
    IsBlank(t.subject) && n.obj == t.subject && n.dt == ""
  }

  predicate BringsObject(t: Triple, n: Triple) {
    IsBlank(t.obj) && t.dt == "" && n.subject == t.obj
  }

  lemma BringsIsLinked(t: Triple, n: Triple)
    ensures BringsSubject(t, n) || BringsObject(t, n) <==> Linked(StatementOf(t), StatementOf(n))
  {
    SameBlank(t.subject, "", n.obj, n.dt, n.language);
    SameBlank(t.obj, t.dt, n.subject, "", "");
    var a, b := StatementOf(t), StatementOf(n);
    assert a.obj.Blank? <==> BlankObject(t);
    if BlankObject(t) {
      assert a.obj == TermOf(t.obj, "", "");
    }
  }

  lemma SameBlank(a: string, adt: string, b: string, bdt: string, blang: string)
    ensures IsBlank(a) && adt == "" ==>
              (TermOf(b, bdt, blang) == TermOf(a, "", "") <==> b == a && bdt == "")
  {
    if IsBlank(a) && adt == "" && TermOf(b, bdt, blang) == TermOf(a, "", "") {
      assert a == a[..2] + a[2..] && b == b[..2] + b[2..];
      assert a[..2] == b[..2];
    }
  }

  // Conservation ------------------------------------------------------------------------------------------

  /**
   Nothing is removed that is not stored, nothing is added that is not revised, an added triple that was
   stored is also removed, and removing and adding gives the revised triples.
   */
  ghost predicate Conserved(s: set<string>, r: set<string>, removed: set<string>, added: set<string>) {
    && removed <= s
    && added <= r
    && added * s <= removed
    && removed * r <= added
    && (s - removed) + added == r
  }

  /** Conservation between a store and the graph with the keys `other`, while triples of the store are taken in. */
  ghost predicate Balanced(store: Entries, other: set<string>, dest: Entries, copy: Entries) {
    Conserved(store.Keys, other, dest.Keys, copy.Keys)
  }

  lemma ConservedByDiff(s: set<string>, r: set<string>)
    ensures Conserved(s, r, s - r, r - s)
  {
  }

  /** The law reads the same from the revised side. */
  lemma ConservedTurned(s: set<string>, r: set<string>, removed: set<string>, added: set<string>)
    requires Conserved(s, r, removed, added)
    ensures Conserved(r, s, added, removed)
  {
  }

  /** Taking triples that are not yet in `dest` into both maps keeps the law. */
  lemma ConservedBySteps(s: set<string>, r: set<string>, removed: set<string>, added: set<string>, taken: set<string>)
    requires Conserved(s, r, removed, added)
    requires taken <= (s - removed) + (r - added)
    ensures Conserved(s, r, removed + taken, added + taken)
  {
  }

  /**
   Complements `triple` with the triples of the store that its blank subject and object bring in,
   transitively, writing into both `dest` and `copy`. Store keys are visited in any order. Conservation
   between the store and the other graph, whose keys are `other`, holds at every iteration.
   */
  method AddBoundedDescription(triple: Triple, store: TripleMap, dest: TripleMap, copy: TripleMap, ghost other: set<string>)
    requires store != dest && store != copy && dest != copy
    requires Balanced(store.entries, other, dest.entries, copy.entries)
    modifies dest, copy
    ensures Balanced(store.entries, other, dest.entries, copy.entries)
    ensures Extended(triple, store.entries, old(dest.entries), old(copy.entries), dest.entries, copy.entries)
    ensures Complete(triple, store.entries, dest.entries)
    decreases |store.entries.Keys - dest.entries.Keys|, 1
  {
    hide StatementOf, Linked, Extended, Complete, Balanced;
    ghost var s, d, c := store.entries, dest.entries, copy.entries;
    ExtendedByNothing(triple, s, d, c);
    if IsBlank(triple.subject) {
      var todo := store.entries.Keys;
      while todo != {}
        invariant todo <= s.Keys
        invariant Balanced(s, other, dest.entries, copy.entries)
        invariant Extended(triple, s, d, c, dest.entries, copy.entries)
        invariant forall k | k in s && k !in todo && BringsSubject(triple, s[k]) :: k in dest.entries
      {
        var hash :| hash in todo;
        todo := todo - {hash};
        var n := store.entries[hash];
        if n.obj == triple.subject && n.dt == "" && hash !in dest.entries {
          BringsIsLinked(triple, n);
          NoMoreLeft(triple, s, d, c, dest.entries, copy.entries);
          TakeIn(hash, triple, store, dest, copy, d, c, other);
        }
      }
    }
    if IsBlank(triple.obj) && triple.dt == "" {
      var todo := store.entries.Keys;
      while todo != {}
        invariant todo <= s.Keys
        invariant Balanced(s, other, dest.entries, copy.entries)
        invariant Extended(triple, s, d, c, dest.entries, copy.entries)
        invariant forall k | k in s && BringsSubject(triple, s[k]) :: k in dest.entries
        invariant forall k | k in s && k !in todo && BringsObject(triple, s[k]) :: k in dest.entries
      {
        var hash :| hash in todo;
        todo := todo - {hash};
        var n := store.entries[hash];
        if n.subject == triple.obj && hash !in dest.entries {
          BringsIsLinked(triple, n);
          NoMoreLeft(triple, s, d, c, dest.entries, copy.entries);
          TakeIn(hash, triple, store, dest, copy, d, c, other);
        }
      }
    }
    AllBroughtIn(triple, s, dest.entries);
  }

  /** The loop body: a linked triple goes into both maps and is described in turn. */
  method TakeIn(hash: string, ghost triple: Triple, store: TripleMap, dest: TripleMap, copy: TripleMap,
                ghost d: Entries, ghost c: Entries, ghost other: set<string>)
    requires store != dest && store != copy && dest != copy
    requires Balanced(store.entries, other, dest.entries, copy.entries)
    requires hash in store.entries && hash !in dest.entries
    requires Linked(StatementOf(triple), StatementOf(store.entries[hash]))
    requires Extended(triple, store.entries, d, c, dest.entries, copy.entries)
    modifies dest, copy
    ensures Balanced(store.entries, other, dest.entries, copy.entries)
    ensures Extended(triple, store.entries, d, c, dest.entries, copy.entries)
    ensures old(dest.entries.Keys) <= dest.entries.Keys && hash in dest.entries
    decreases |store.entries.Keys - dest.entries.Keys|, 0
  {
    hide StatementOf, Linked, Extended, Complete, Balanced;
    ghost var d1, c1 := dest.entries, copy.entries;
    TakenIsBalanced(store.entries, other, d1, c1, hash);
    var n := store.entries[hash];
    dest.entries := dest.entries[hash := n];
    copy.entries := copy.entries[hash := n];
    FewerLeft(store.entries, d1, hash);
    AddBoundedDescription(n, store, dest, copy, other);
    ExtendedByOneMore(triple, store.entries, d, c, d1, c1, hash, dest.entries, copy.entries);
  }

  lemma TakenIsBalanced(s: Entries, other: set<string>, d: Entries, c: Entries, hash: string)
    requires Balanced(s, other, d, c) && hash in s && hash !in d
    ensures Balanced(s, other, d[hash := s[hash]], c[hash := s[hash]])
  {
    ConservedBySteps(s.Keys, other, d.Keys, c.Keys, {hash});
    assert d[hash := s[hash]].Keys == d.Keys + {hash} && c[hash := s[hash]].Keys == c.Keys + {hash};
  }

  lemma AllBroughtIn(t: Triple, s: Entries, d: Entries)
    requires forall k | k in s && (BringsSubject(t, s[k]) || BringsObject(t, s[k])) :: k in d
    ensures Complete(t, s, d)
  {
    forall k | k in s && Linked(StatementOf(t), StatementOf(s[k])) ensures k in d {
      BringsIsLinked(t, s[k]);
    }
  }

  lemma FewerLeft(s: Entries, d: Entries, hash: string)
    requires hash in s && hash !in d
    ensures |s.Keys - d[hash := s[hash]].Keys| < |s.Keys - d.Keys|
  {
    assert s.Keys - d.Keys == (s.Keys - d[hash := s[hash]].Keys) + {hash};
  }

  lemma NoMoreLeft(t: Triple, s: Entries, d: Entries, c: Entries, d': Entries, c': Entries)
    requires Extended(t, s, d, c, d', c')
    ensures |s.Keys - d'.Keys| <= |s.Keys - d.Keys|
  {
    assert s.Keys - d.Keys == (s.Keys - d'.Keys) + (s.Keys * d'.Keys - d.Keys);
  }

  lemma ExtendedByNothing(t: Triple, s: Entries, d: Entries, c: Entries)
    ensures Extended(t, s, d, c, d, c)
  {
  }

  /** Taking `hash` in and describing it in turn keeps what has been gathered so far in order. */
  lemma ExtendedByOneMore(t: Triple, s: Entries, d: Entries, c: Entries,
                          d1: Entries, c1: Entries, hash: string, d2: Entries, c2: Entries)
    requires Extended(t, s, d, c, d1, c1)
    requires hash in s && hash !in d1 && Linked(StatementOf(t), StatementOf(s[hash]))
    requires Extended(s[hash], s, d1[hash := s[hash]], c1[hash := s[hash]], d2, c2)
    requires Complete(s[hash], s, d2)
    ensures Extended(t, s, d, c, d2, c2)
    ensures d1.Keys <= d2.Keys && hash in d2
  {
    GrownByOneMore(s, d, c, d1, c1, hash, d2, c2);
    var g := StatementsOf(s);
    assert StatementOf(s[hash]) in g;
    ConnectedStep(g, StatementOf(t), StatementOf(s[hash]));
    forall k | k in d2 && k !in d
      ensures Complete(d2[k], s, d2) && Connected(g, StatementOf(t), StatementOf(d2[k]))
    {
      hide Connected, Linked, StatementOf, Copied;
      if k in d1 {
        assert Complete(d1[k], s, d1) && d2[k] == d1[k];
      } else if k == hash {
        assert d2[k] == s[hash];
      } else {
        ConnectedTransitive(g, StatementOf(t), StatementOf(s[hash]), StatementOf(d2[k]));
      }
    }
  }

  lemma GrownFurther(s: Entries, d: Entries, c: Entries, d1: Entries, c1: Entries, d2: Entries, c2: Entries)
    requires Grown(d, d1, s) && Copied(d, d1, c, c1)
    requires Grown(d1, d2, s) && Copied(d1, d2, c1, c2)
    ensures Grown(d, d2, s) && Copied(d, d2, c, c2)
  {
  }

  lemma GrownByOneMore(s: Entries, d: Entries, c: Entries,
                       d1: Entries, c1: Entries, hash: string, d2: Entries, c2: Entries)
    requires Grown(d, d1, s) && Copied(d, d1, c, c1) && hash in s && hash !in d1
    requires Grown(d1[hash := s[hash]], d2, s) && Copied(d1[hash := s[hash]], d2, c1[hash := s[hash]], c2)
    ensures Grown(d, d2, s) && Copied(d, d2, c, c2)
  {
    GrownFurther(s, d, c, d1, c1, d1[hash := s[hash]], c1[hash := s[hash]]);
    GrownFurther(s, d, c, d1[hash := s[hash]], c1[hash := s[hash]], d2, c2);
  }

  // The diff and the two closure loops ----------------------------------------------------------------

  method DiffTriples(oldTriples: TripleMap, newTriples: TripleMap) returns (added: TripleMap, removed: TripleMap)
    ensures fresh(added) && fresh(removed) && added != removed
    ensures removed.entries == OnlyIn(oldTriples.entries, newTriples.entries)
    ensures added.entries == OnlyIn(newTriples.entries, oldTriples.entries)
  {
    added := new TripleMap();
    removed := new TripleMap();
    var o, n := oldTriples.entries, newTriples.entries;
    var todo := o.Keys;
    while todo != {}
      invariant todo <= o.Keys && o == oldTriples.entries && n == newTriples.entries
      invariant fresh(added) && fresh(removed) && added.entries == map[]
      invariant removed.entries == map k | k in o && k !in n && k !in todo :: o[k]
    {
      var hash :| hash in todo;
      todo := todo - {hash};
      if hash !in n {
        removed.entries := removed.entries[hash := o[hash]];
      }
    }
    todo := n.Keys;
    while todo != {}
      invariant todo <= n.Keys && o == oldTriples.entries && n == newTriples.entries
      invariant fresh(added) && fresh(removed) && removed.entries == OnlyIn(o, n)
      invariant added.entries == map k | k in n && k !in o && k !in todo :: n[k]
    {
      var hash :| hash in todo;
      todo := todo - {hash};
      if hash !in o {
        added.entries := added.entries[hash := n[hash]];
      }
    }
  }

  function OnlyIn(a: Entries, b: Entries): Entries {
    map k | k in a && k !in b :: a[k]
  }

  /** The statements of `m` are tied to a seed within the graph `g`. */
  ghost predicate WithinReach(m: Entries, g: Graph, seeds: Graph) {
    forall k | k in m :: Reached(g, seeds, StatementOf(m[k]))
  }

  /** Everything in `store` linked to a triple of `m` is in `m`. */
  ghost predicate ClosedIn(m: Entries, store: Entries) {
    forall k | k in m :: Complete(m[k], store, m)
  }

  /** The state of a closure loop: visited entries and entries added on the way are complete. */
  ghost predicate Closing(s: Entries, d: Entries, c: Entries, visited: set<string>, d': Entries, c': Entries,
                          g: Graph, seeds: Graph) {
    && Grown(d, d', s)
    && Copied(d, d', c, c')
    && (forall k | k in d' && (k in visited || k !in d) :: Complete(d'[k], s, d'))
    && WithinReach(d', g, seeds)
  }

  /**
   One closure loop. The engine may or may not visit keys added while the loop runs, and visits keys
   in any order. Conservation holds at every iteration.
   */
  method CloseOver(store: TripleMap, dest: TripleMap, copy: TripleMap, ghost g: Graph, ghost seeds: Graph,
                   ghost other: set<string>)
    requires store != dest && store != copy && dest != copy
    requires Balanced(store.entries, other, dest.entries, copy.entries)
    requires StatementsOf(store.entries) <= g
    requires WithinReach(dest.entries, g, seeds)
    modifies dest, copy
    ensures Balanced(store.entries, other, dest.entries, copy.entries)
    ensures Grown(old(dest.entries), dest.entries, store.entries)
    ensures Copied(old(dest.entries), dest.entries, old(copy.entries), copy.entries)
    ensures ClosedIn(dest.entries, store.entries)
    ensures WithinReach(dest.entries, g, seeds)
  {
    hide StatementOf, Extended, Complete, StatementsOf, Grown, Copied, Closing, WithinReach, ClosedIn, Balanced;
    ghost var s, d, c := store.entries, dest.entries, copy.entries;
    ClosingStart(s, d, c, g, seeds);
    var first, visited, more := dest.entries.Keys, {}, true;
    while visited != dest.entries.Keys && (!(first <= visited) || more)
      invariant Balanced(s, other, dest.entries, copy.entries)
      invariant first == d.Keys && visited <= dest.entries.Keys <= s.Keys + d.Keys
      invariant Closing(s, d, c, visited, dest.entries, copy.entries, g, seeds)
      decreases |s.Keys + d.Keys - visited|
    {
      assert dest.entries.Keys - visited != {};
      var hash :| hash in dest.entries.Keys - visited;
      ghost var d1, c1 := dest.entries, copy.entries;
      AddBoundedDescription(dest.entries[hash], store, dest, copy, other);
      ClosingStep(s, d, c, visited, hash, d1, c1, dest.entries, copy.entries, g, seeds);
      visited := visited + {hash};
      more := *;
    }
    ClosingDone(s, d, c, visited, dest.entries, copy.entries, g, seeds);
  }

  lemma ClosingStart(s: Entries, d: Entries, c: Entries, g: Graph, seeds: Graph)
    requires WithinReach(d, g, seeds)
    ensures Closing(s, d, c, {}, d, c, g, seeds)
  {
  }

  lemma ClosingStep(s: Entries, d: Entries, c: Entries, visited: set<string>, hash: string,
                    d1: Entries, c1: Entries, d2: Entries, c2: Entries, g: Graph, seeds: Graph)
    requires StatementsOf(s) <= g
    requires Closing(s, d, c, visited, d1, c1, g, seeds) && hash in d1 && hash !in visited
    requires Extended(d1[hash], s, d1, c1, d2, c2) && Complete(d1[hash], s, d2)
    ensures Closing(s, d, c, visited + {hash}, d2, c2, g, seeds)
    ensures d1.Keys <= d2.Keys <= s.Keys + d.Keys
    ensures |s.Keys + d.Keys - (visited + {hash})| < |s.Keys + d.Keys - visited|
  {
    hide WithinReach, Connected, Linked;
    GrownFurther(s, d, c, d1, c1, d2, c2);
    forall k | k in d2 && (k in visited + {hash} || k !in d) ensures Complete(d2[k], s, d2) {
      if k in d1 && k != hash {
        assert Complete(d1[k], s, d1);
      }
    }
    ReachGrows(hash, s, d1, c1, d2, c2, g, seeds);
    OneLess(s.Keys + d.Keys, visited, hash);
  }

  lemma OneLess(all: set<string>, visited: set<string>, x: string)
    requires x in all && x !in visited
    ensures |all - (visited + {x})| < |all - visited|
  {
    assert all - visited == (all - (visited + {x})) + {x};
  }

  lemma ReachGrows(hash: string, s: Entries, d: Entries, c: Entries, d': Entries, c': Entries, g: Graph, seeds: Graph)
    requires StatementsOf(s) <= g && hash in d
    requires Extended(d[hash], s, d, c, d', c')
    requires WithinReach(d, g, seeds)
    ensures WithinReach(d', g, seeds)
  {
    var t := d[hash];
    forall k | k in d' ensures Reached(g, seeds, StatementOf(d'[k])) {
      if k !in d {
        var seed :| seed in seeds && Connected(g, seed, StatementOf(t));
        ConnectedIn(StatementsOf(s), g, StatementOf(t), StatementOf(d'[k]));
        ConnectedTransitive(g, seed, StatementOf(t), StatementOf(d'[k]));
      }
    }
  }

  lemma ClosingDone(s: Entries, d: Entries, c: Entries, visited: set<string>, d': Entries, c': Entries, g: Graph, seeds: Graph)
    requires Closing(s, d, c, visited, d', c', g, seeds) && (visited == d'.Keys || d.Keys <= visited)
    ensures Grown(d, d', s) && Copied(d, d', c, c') && ClosedIn(d', s) && WithinReach(d', g, seeds)
  {
  }

  // What a submitted form removes and adds ------------------------------------------------------------

  /**
   The diff with both closure loops run. Whatever the order of iteration, exactly the statements tied
   to a difference are removed from the stored side and added on the revised side.
   */
  method RemovedAndAdded(stored: TripleMap, revised: TripleMap) returns (removed: TripleMap, added: TripleMap)
    requires Keyed(stored.entries) && Keyed(revised.entries)
    ensures fresh(removed) && fresh(added)
    ensures Keyed(removed.entries) && Keyed(added.entries)
    ensures Balanced(stored.entries, revised.entries.Keys, removed.entries, added.entries)
    ensures var s, r := StatementsOf(stored.entries), StatementsOf(revised.entries);
            && StatementsOf(removed.entries) == Moved(s, r) * s
            && StatementsOf(added.entries) == Moved(s, r) * r
  {
    hide Moved, Reached, StatementOf, Writable, StatementsOf, Grown, Copied, ClosedIn, WithinReach, Balanced;
    ghost var s, r := stored.entries, revised.entries;
    ghost var sg, rg := StatementsOf(s), StatementsOf(r);
    ghost var g, seeds := sg + rg, (sg - rg) + (rg - sg);
    added, removed := DiffTriples(stored, revised);
    DifferencesAreSeeds(s, r);
    ghost var r0, a0 := removed.entries, added.entries;
    DiffIsBalanced(s, r);
    CloseOver(stored, removed, added, g, seeds, r.Keys);
    BalancedTurned(s, r, removed.entries, added.entries);
    ghost var r1, a1 := removed.entries, added.entries;
    CopyWithinReach(r0, r1, a0, a1, g, seeds);
    CloseOver(revised, added, removed, g, seeds, s.Keys);
    BalancedTurned(r, s, added.entries, removed.entries);
    CopyWithinReach(a1, added.entries, r1, removed.entries, g, seeds);
    ExactlyMoved(s, r, r1, a1, removed.entries, added.entries);
  }

  lemma DiffIsBalanced(s: Entries, r: Entries)
    ensures Balanced(s, r.Keys, OnlyIn(s, r), OnlyIn(r, s))
  {
    ConservedByDiff(s.Keys, r.Keys);
    assert OnlyIn(s, r).Keys == s.Keys - r.Keys && OnlyIn(r, s).Keys == r.Keys - s.Keys;
  }

  lemma BalancedTurned(s: Entries, r: Entries, d: Entries, c: Entries)
    requires Balanced(s, r.Keys, d, c)
    ensures Balanced(r, s.Keys, c, d)
  {
    ConservedTurned(s.Keys, r.Keys, d.Keys, c.Keys);
  }

  lemma CopyWithinReach(d: Entries, d': Entries, c: Entries, c': Entries, g: Graph, seeds: Graph)
    requires Copied(d, d', c, c') && WithinReach(c, g, seeds) && WithinReach(d', g, seeds)
    ensures WithinReach(c', g, seeds)
  {
    forall k | k in c' ensures Reached(g, seeds, StatementOf(c'[k])) {
    }
  }

  ghost function Seeds(s: Entries, r: Entries): Graph {
    (StatementsOf(s) - StatementsOf(r)) + (StatementsOf(r) - StatementsOf(s))
  }

  lemma DifferencesAreSeeds(s: Entries, r: Entries)
    requires Keyed(s) && Keyed(r)
    ensures WithinReach(OnlyIn(s, r), StatementsOf(s) + StatementsOf(r), Seeds(s, r))
    ensures WithinReach(OnlyIn(r, s), StatementsOf(s) + StatementsOf(r), Seeds(s, r))
  {
    KeyedStatements(s, r);
    forall k | k in s && k !in r ensures Reached(StatementsOf(s) + StatementsOf(r), Seeds(s, r), StatementOf(s[k])) {
      assert StatementOf(s[k]) in StatementsOf(s) - StatementsOf(r);
      ConnectedSelf(StatementsOf(s) + StatementsOf(r), StatementOf(s[k]));
    }
    forall k | k in r && k !in s ensures Reached(StatementsOf(s) + StatementsOf(r), Seeds(s, r), StatementOf(r[k])) {
      assert StatementOf(r[k]) in StatementsOf(r) - StatementsOf(s);
      ConnectedSelf(StatementsOf(s) + StatementsOf(r), StatementOf(r[k]));
    }
  }

  /** The final maps after both loops, given the maps after the first. */
  ghost predicate BothLoops(s: Entries, r: Entries, r1: Entries, a1: Entries, r2: Entries, a2: Entries) {
    && Grown(OnlyIn(s, r), r1, s) && Copied(OnlyIn(s, r), r1, OnlyIn(r, s), a1) && ClosedIn(r1, s)
    && Grown(a1, a2, r) && Copied(a1, a2, r1, r2) && ClosedIn(a2, r)
  }

  lemma KeysTaken(d: Entries, d': Entries, c: Entries, c': Entries, store: Entries)
    requires Grown(d, d', store) && Copied(d, d', c, c')
    ensures d'.Keys == d.Keys + (d'.Keys - d.Keys) && c'.Keys == c.Keys + (d'.Keys - d.Keys)
    ensures d'.Keys - d.Keys <= store.Keys - d.Keys
  {
  }

  lemma ConservedByBoth(s: Entries, r: Entries, r1: Entries, a1: Entries, r2: Entries, a2: Entries)
    requires BothLoops(s, r, r1, a1, r2, a2)
    ensures Conserved(s.Keys, r.Keys, r1.Keys, a1.Keys) && Conserved(s.Keys, r.Keys, r2.Keys, a2.Keys)
    ensures s.Keys - r.Keys <= r2.Keys <= s.Keys && r.Keys - s.Keys <= a2.Keys <= r.Keys
    ensures a1.Keys <= a2.Keys && r2.Keys == r1.Keys + (a2.Keys - a1.Keys)
  {
    hide Grown, Copied, ClosedIn;
    var r0, a0 := OnlyIn(s, r), OnlyIn(r, s);
    assert r0.Keys == s.Keys - r.Keys && a0.Keys == r.Keys - s.Keys;
    KeysTaken(r0, r1, a0, a1, s);
    KeysTaken(a1, a2, r1, r2, r);
    ConservedBySteps(s.Keys, r.Keys, r0.Keys, a0.Keys, r1.Keys - r0.Keys);
    ConservedBySteps(s.Keys, r.Keys, r1.Keys, a1.Keys, a2.Keys - a1.Keys);
  }

  lemma KeyedByBoth(s: Entries, r: Entries, r1: Entries, a1: Entries, r2: Entries, a2: Entries)
    requires Keyed(s) && Keyed(r) && BothLoops(s, r, r1, a1, r2, a2)
    ensures Keyed(r1) && Keyed(r2) && Keyed(a2)
  {
    hide ClosedIn, Writable;
    KeyedGrows(OnlyIn(s, r), r1, s, OnlyIn(r, s), a1);
    KeyedGrows(a1, a2, r, r1, r2);
  }

  lemma KeyedGrows(d: Entries, d': Entries, store: Entries, c: Entries, c': Entries)
    requires Keyed(d) && Keyed(store) && Keyed(c) && Grown(d, d', store) && Copied(d, d', c, c')
    ensures Keyed(d') && Keyed(c')
  {
    hide Writable;
  }

  // Keys stand for statements -------------------------------------------------------------------------

  function Means(key: string): Statement {
    match DecodeLine(key)
    case Some((st, _)) => st
    case None => Statement(Iri(""), Iri(""), Iri(""))
  }

  ghost function Image(keys: set<string>): Graph {
    set k | k in keys :: Means(k)
  }

  lemma KeyMeans(m: Entries)
    requires Keyed(m)
    ensures forall k | k in m :: StatementOf(m[k]) == Means(k)
    ensures StatementsOf(m) == Image(m.Keys)
  {
    forall k | k in m ensures StatementOf(m[k]) == Means(k) {
      LineDecodes(m[k], "");
      assert TripleText(m[k]) + "" == k;
    }
  }

  ghost predicate Faithful(keys: set<string>) {
    forall j, k | j in keys && k in keys && Means(j) == Means(k) :: j == k
  }

  lemma KeysAreFaithful(s: Entries, r: Entries)
    requires Keyed(s) && Keyed(r)
    ensures Faithful(s.Keys + r.Keys)
  {
    hide StatementOf, Means, Keyed;
    KeyMeans(s);
    KeyMeans(r);
    KeyedStatements(s, s);
    KeyedStatements(s, r);
    KeyedStatements(r, r);
    forall j, k | j in s.Keys + r.Keys && k in s.Keys + r.Keys && Means(j) == Means(k) ensures j == k {
      if j in s && k in s {
        assert StatementOf(s[j]) == StatementOf(s[k]);
      } else if j in s {
        assert StatementOf(s[j]) == StatementOf(r[k]);
      } else if k in s {
        assert StatementOf(s[k]) == StatementOf(r[j]);
      } else {
        assert StatementOf(r[j]) == StatementOf(r[k]);
      }
    }
  }

  ghost predicate ClosedKeys(m: set<string>, store: set<string>) {
    forall j, k | j in m && k in store && Linked(Means(j), Means(k)) :: k in m
  }

  lemma ClosedInKeys(m: Entries, store: Entries)
    requires Keyed(m) && Keyed(store) && ClosedIn(m, store)
    ensures ClosedKeys(m.Keys, store.Keys)
  {
    hide StatementOf, Means, Keyed, Linked;
    KeyMeans(m);
    KeyMeans(store);
    forall j, k | j in m.Keys && k in store.Keys && Linked(Means(j), Means(k)) ensures k in m {
      assert Complete(m[j], store, m);
    }
  }

  /** The second loop, which also writes into the first loop's map, leaves that map closed. */
  lemma StillClosed(s: set<string>, r: set<string>, r1: set<string>, a1: set<string>, r2: set<string>, a2: set<string>)
    requires Conserved(s, r, r2, a2) && s - r <= r2
    requires a1 <= a2 && r2 == r1 + (a2 - a1)
    requires ClosedKeys(r1, s) && ClosedKeys(a2, r)
    ensures ClosedKeys(r2, s)
  {
    hide Means, Linked;
  }

  lemma ClosedTogether(s: set<string>, r: set<string>, r2: set<string>, a2: set<string>)
    requires Conserved(s, r, r2, a2) && s - r <= r2 && r - s <= a2
    requires ClosedKeys(r2, s) && ClosedKeys(a2, r)
    ensures ClosedKeys(r2 + a2, s + r)
  {
    hide Means, Linked;
  }

  lemma ImageFacts(s: set<string>, r: set<string>, r2: set<string>, a2: set<string>)
    requires Faithful(s + r)
    requires Conserved(s, r, r2, a2) && s - r <= r2 && r - s <= a2
    ensures var m := Image(r2) + Image(a2);
            && (Image(s) - Image(r)) + (Image(r) - Image(s)) <= m <= Image(s) + Image(r)
            && m * Image(s) == Image(r2)
            && m * Image(r) == Image(a2)
  {
    hide Means;
  }

  lemma ImageClosed(m: set<string>, store: set<string>)
    requires m <= store && Faithful(store) && ClosedKeys(m, store)
    ensures Closed(Image(m), Image(store))
  {
    hide Means, Linked;
    forall a, b | a in Image(m) && b in Image(store) && Linked(a, b) ensures b in Image(m) {
      var j :| j in m && Means(j) == a;
      var k :| k in store && Means(k) == b;
      assert k in m;
    }
  }

  lemma ExactlyMoved(s: Entries, r: Entries, r1: Entries, a1: Entries, r2: Entries, a2: Entries)
    requires Keyed(s) && Keyed(r) && BothLoops(s, r, r1, a1, r2, a2)
    requires WithinReach(r2, StatementsOf(s) + StatementsOf(r), Seeds(s, r))
    requires WithinReach(a2, StatementsOf(s) + StatementsOf(r), Seeds(s, r))
    ensures Keyed(r2) && Keyed(a2)
    ensures StatementsOf(r2) == Moved(StatementsOf(s), StatementsOf(r)) * StatementsOf(s)
    ensures StatementsOf(a2) == Moved(StatementsOf(s), StatementsOf(r)) * StatementsOf(r)
  {
    hide StatementOf, Means, Linked, Reached, Moved, Keyed, Grown, Copied, Conserved, Complete, WithinReach,
         Faithful, ClosedKeys, Closed;
    ConservedByBoth(s, r, r1, a1, r2, a2);
    KeyedByBoth(s, r, r1, a1, r2, a2);
    KeysAreFaithful(s, r);
    ClosedInKeys(r1, s);
    ClosedInKeys(a2, r);
    StillClosed(s.Keys, r.Keys, r1.Keys, a1.Keys, r2.Keys, a2.Keys);
    ClosedTogether(s.Keys, r.Keys, r2.Keys, a2.Keys);
    ImageFacts(s.Keys, r.Keys, r2.Keys, a2.Keys);
    ImageClosed(r2.Keys + a2.Keys, s.Keys + r.Keys);
    MovedImage(s, r, r2, a2);
  }

  lemma MovedImage(s: Entries, r: Entries, r2: Entries, a2: Entries)
    requires Keyed(s) && Keyed(r) && Keyed(r2) && Keyed(a2)
    requires WithinReach(r2, StatementsOf(s) + StatementsOf(r), Seeds(s, r))
    requires WithinReach(a2, StatementsOf(s) + StatementsOf(r), Seeds(s, r))
    requires Closed(Image(r2.Keys + a2.Keys), Image(s.Keys + r.Keys))
    requires var m := Image(r2.Keys) + Image(a2.Keys);
             && (Image(s.Keys) - Image(r.Keys)) + (Image(r.Keys) - Image(s.Keys)) <= m <= Image(s.Keys) + Image(r.Keys)
             && m * Image(s.Keys) == Image(r2.Keys)
             && m * Image(r.Keys) == Image(a2.Keys)
    ensures StatementsOf(r2) == Moved(StatementsOf(s), StatementsOf(r)) * StatementsOf(s)
    ensures StatementsOf(a2) == Moved(StatementsOf(s), StatementsOf(r)) * StatementsOf(r)
  {
    hide StatementOf, Means, Linked, Reached, Moved, Writable, Keyed, Closed;
    KeyMeans(s);
    KeyMeans(r);
    KeyMeans(r2);
    KeyMeans(a2);
    var m := StatementsOf(r2) + StatementsOf(a2);
    assert Image(r2.Keys + a2.Keys) == m;
    assert Image(s.Keys + r.Keys) == StatementsOf(s) + StatementsOf(r);
    MovedIsTheOnlyOne(StatementsOf(s), StatementsOf(r), m);
  }
}
