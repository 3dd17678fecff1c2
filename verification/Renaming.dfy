/** Blank nodes of a graph, renaming them, and graphs that are the same up to renaming. */
module Renamings {
  import opened RdfText
  import opened Graphs

  function TermBlank(t: Term): set<string> {
    if t.Blank? then {t.id} else {}
  }

  /** Blank nodes occur as subject and as object only. */
  function BlanksOf(st: Statement): set<string> {
    TermBlank(st.subject) + TermBlank(st.obj)
  }

  function Blanks(g: Graph): set<string> {
    set st, b | st in g && b in BlanksOf(st) :: b
  }

  type Renaming = map<string, string>

  function RenameTerm(t: Term, m: Renaming): Term {
    if t.Blank? && t.id in m then Blank(m[t.id]) else t
  }

  function RenameStatement(st: Statement, m: Renaming): Statement {
    Statement(RenameTerm(st.subject, m), st.property, RenameTerm(st.obj, m))
  }

  function Rename(g: Graph, m: Renaming): Graph {
    set st | st in g :: RenameStatement(st, m)
  }

  ghost predicate Injective(m: Renaming) {
    forall a, b | a in m && b in m && m[a] == m[b] :: a == b
  }

  /** `m` is a bijection between the blank nodes of `g` and `h` that carries `g` onto `h`. */
  ghost predicate IsomorphicBy(g: Graph, h: Graph, m: Renaming) {
    m.Keys == Blanks(g) && m.Values == Blanks(h) && Injective(m) && Rename(g, m) == h
  }

  ghost predicate Isomorphic(g: Graph, h: Graph) {
    exists m :: IsomorphicBy(g, h, m)
  }

  /** New labels for the inserted blank nodes, unused in the store. */
  ghost predicate Fresh(m: Renaming, store: Graph, added: Graph) {
    m.Keys == Blanks(added) && Injective(m) && m.Values !! Blanks(store)
  }

  // Renaming ------------------------------------------------------------------------------------------

  lemma RenamedBlanks(g: Graph, m: Renaming)
    requires m.Keys == Blanks(g)
    ensures Blanks(Rename(g, m)) == m.Values
  {
    hide BlanksOf, RenameStatement;
    forall b | b in Blanks(Rename(g, m)) ensures b in m.Values {
      var st' :| st' in Rename(g, m) && b in BlanksOf(st');
      var st :| st in g && RenameStatement(st, m) == st';
      assert BlanksOf(st) <= Blanks(g);
      RenamedComes(st, m, b);
    }
    forall b | b in m.Values ensures b in Blanks(Rename(g, m)) {
      var a :| a in m && m[a] == b;
      var st :| st in g && a in BlanksOf(st);
      assert RenameStatement(st, m) in Rename(g, m);
      RenamedHas(st, a, m);
    }
  }

  lemma RenamedHas(st: Statement, a: string, m: Renaming)
    requires a in BlanksOf(st) && a in m
    ensures m[a] in BlanksOf(RenameStatement(st, m))
  {
  }

  lemma RenamedComes(st: Statement, m: Renaming, b: string)
    requires b in BlanksOf(RenameStatement(st, m)) && BlanksOf(st) <= m.Keys
    ensures b in m.Values
  {
  }

  lemma ValuesWithout(m: Renaming, a: string)
    requires Injective(m) && a in m
    ensures Injective(m - {a}) && (m - {a}).Values == m.Values - {m[a]}
  {
    var rest := m - {a};
    forall b | b in m.Values - {m[a]} ensures b in rest.Values {
      var k :| k in m && m[k] == b;
      assert k in rest && rest[k] == b;
    }
    forall b | b in rest.Values ensures b in m.Values - {m[a]} {
      var k :| k in rest && rest[k] == b;
      assert k in m && m[k] == b;
    }
  }

  lemma ValuesCount(m: Renaming)
    requires Injective(m)
    ensures |m.Values| == |m.Keys|
  {
    if m.Keys != {} {
      var a :| a in m;
      var rest := m - {a};
      assert rest.Keys == m.Keys - {a};
      ValuesWithout(m, a);
      ValuesCount(rest);
    }
  }

  /** Renaming acts on kept and added statements separately, as if they shared no label. */
  lemma RenameParts(kept: Graph, added: Graph, fresh_: Renaming, m: Renaming)
    requires fresh_.Keys == Blanks(added)
    requires m == map b | b in Blanks(kept) + Blanks(added) :: if b in fresh_ then fresh_[b] else b
    requires Blanks(kept) !! Blanks(added)
    ensures Rename(kept + added, m) == kept + Rename(added, fresh_)
  {
    forall st | st in kept ensures RenameStatement(st, m) == st {
      assert BlanksOf(st) <= Blanks(kept);
    }
    forall st | st in added ensures RenameStatement(st, m) == RenameStatement(st, fresh_) {
      assert BlanksOf(st) <= Blanks(added);
    }
    forall st | st in Rename(kept + added, m) ensures st in kept + Rename(added, fresh_) {
      var o :| o in kept + added && RenameStatement(o, m) == st;
    }
    forall st | st in kept + Rename(added, fresh_) ensures st in Rename(kept + added, m) {
      if st in kept {
        assert st == RenameStatement(st, m) && st in kept + added;
      } else {
        var o :| o in added && RenameStatement(o, fresh_) == st;
        assert o in kept + added;
      }
    }
  }

  lemma BlanksOfUnion(g: Graph, h: Graph)
    ensures Blanks(g + h) == Blanks(g) + Blanks(h)
  {
  }

  lemma DisjointRebuilds(stored: Graph, kept: Graph, added: Graph, fresh_: Renaming)
    requires kept <= stored && Fresh(fresh_, stored, added)
    requires Blanks(kept) !! Blanks(added)
    ensures Isomorphic(kept + added, kept + Rename(added, fresh_))
  {
    var m := map b | b in Blanks(kept) + Blanks(added) :: if b in fresh_ then fresh_[b] else b;
    RenameParts(kept, added, fresh_, m);
    BlanksOfUnion(kept, added);
    RenamedBlanks(kept + added, m);
    BlanksWithin(kept, stored);
    forall a | a in fresh_ ensures fresh_[a] !in Blanks(kept) {
      assert fresh_[a] in fresh_.Values;
    }
    assert IsomorphicBy(kept + added, kept + Rename(added, fresh_), m);
  }

  lemma BlanksWithin(g: Graph, h: Graph)
    requires g <= h
    ensures Blanks(g) <= Blanks(h)
  {
  }

  lemma RebuildsDisjoint(stored: Graph, kept: Graph, added: Graph, fresh_: Renaming)
    requires kept <= stored && Fresh(fresh_, stored, added)
    requires Isomorphic(kept + added, kept + Rename(added, fresh_))
    ensures Blanks(kept) !! Blanks(added)
  {
    var result := kept + Rename(added, fresh_);
    var m :| IsomorphicBy(kept + added, result, m);
    ValuesCount(m);
    ValuesCount(fresh_);
    BlanksOfUnion(kept, added);
    BlanksOfUnion(kept, Rename(added, fresh_));
    RenamedBlanks(added, fresh_);
    BlanksWithin(kept, stored);
    assert Blanks(kept) !! fresh_.Values;
    assert |Blanks(result)| == |Blanks(kept)| + |Blanks(added)|;
    assert |Blanks(kept) * Blanks(added)| == 0;
  }

  // Fresh labels --------------------------------------------------------------------------------------

  /** Fresh labels always exist: there are finitely many to avoid. */
  lemma FreshRenaming(store: Graph, added: Graph) returns (m: Renaming)
    ensures Fresh(m, store, added)
  {
    m := FreshLabels(Blanks(added), Blanks(store));
  }

  lemma FreshLabels(names: set<string>, avoid: set<string>) returns (m: Renaming)
    ensures m.Keys == names && Injective(m) && m.Values !! avoid
    decreases names
  {
    if names == {} {
      m := map[];
    } else {
      var n :| n in names;
      var rest := FreshLabels(names - {n}, avoid);
      var unused := LongLabel(avoid + rest.Values);
      m := rest[n := unused];
      assert m.Keys == names;
      forall b | b in m.Values ensures b !in avoid {
        var a :| a in m && m[a] == b;
        assert a != n ==> rest[a] in rest.Values;
      }
      forall a | a in rest ensures rest[a] != unused {
        assert rest[a] in rest.Values;
      }
    }
  }

  lemma LongLabel(avoid: set<string>) returns (unused: string)
    ensures unused !in avoid
  {
    var n := LongerThanAll(avoid);
    unused := seq(n, _ => 'b');
  }

  lemma LongerThanAll(names: set<string>) returns (n: nat)
    ensures forall s | s in names :: |s| < n
    decreases names
  {
    if names == {} {
      n := 0;
    } else {
      var s :| s in names;
      var rest := LongerThanAll(names - {s});
      n := if |s| < rest then rest else |s| + 1;
    }
  }
}
