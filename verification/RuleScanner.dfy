/**
 The scanner of a Creole rule: it cuts its input at the leftmost match of its children, and keeps the
 matches it has found, shifted, from one cut to the next. Patterns are abstract: a child is the function
 that finds its first match in a text.
 */
module RuleScanner {
  import opened Helpers

  datatype Match = Match(index: nat, length: nat)

  type Pattern = string -> Option<Match>

  /** What is known of a child's first match in the current tail. */
  datatype Slot = Unknown | NoMatch | Found(m: Match)

  /** Text left to the fallback, and text handed to a child. */
  datatype Piece = Plain(text: string) | Built(child: nat, text: string)

  // Patterns ------------------------------------------------------------------------------------------------------

  predicate Within(m: Match, s: string) {
    0 < m.length && m.index + m.length <= |s|
  }

  /** Matches lie in the text and are not empty. */
  ghost predicate NonEmpty(children: seq<Pattern>) {
    forall i, s | 0 <= i < |children| && children[i](s).Some? :: Within(children[i](s).value, s)
  }

  /** What a pattern finds does not depend on the text before it. */
  ghost predicate Stable(children: seq<Pattern>) {
    forall i, s, k | 0 <= i < |children| && 0 <= k <= |s| :: StableAt(children[i], s, k)
  }

  ghost predicate StableAt(p: Pattern, s: string, k: nat)
    requires k <= |s|
  {
    && (p(s).None? ==> p(s[k..]).None?)
    && (p(s).Some? && k <= p(s).value.index ==>
          p(s[k..]) == Some(Match(p(s).value.index - k, p(s).value.length)))
  }

  // The scan without a cache --------------------------------------------------------------------------------------

  /** The leftmost match among the first `n` children, the earliest child's on ties. */
  function Best(children: seq<Pattern>, tail: string, n: nat): (r: Option<(nat, Match)>)
    requires n <= |children|
    ensures r.Some? ==> r.value.0 < n && children[r.value.0](tail) == Some(r.value.1)
  {
    if n == 0 then None
    else
      var b := Best(children, tail, n - 1);
      var m := children[n - 1](tail);
      if m.Some? && (b.None? || b.value.1.index > m.value.index) then Some((n - 1, m.value)) else b
  }

  /** Best is what it says: no child matches further left, and no earlier child at the same place. */
  lemma {:induction false} BestIsLeftmost(children: seq<Pattern>, tail: string, n: nat)
    requires n <= |children|
    ensures var b := Best(children, tail, n);
            && (b.None? <==> forall i | 0 <= i < n :: children[i](tail).None?)
            && (b.Some? ==> forall i | 0 <= i < n && children[i](tail).Some? ::
                  var m := children[i](tail).value;
                  b.value.1.index <= m.index && (m.index == b.value.1.index ==> b.value.0 <= i))
    decreases n
  {
    if n > 0 {
      BestIsLeftmost(children, tail, n - 1);
    }
  }

  /** Once a child matches at the start of the text, no later child can do better. */
  lemma {:induction false} StartIsBest(children: seq<Pattern>, tail: string, n: nat, all: nat)
    requires n <= all <= |children|
    requires Best(children, tail, n).Some? && Best(children, tail, n).value.1.index == 0
    ensures Best(children, tail, all) == Best(children, tail, n)
    decreases all
  {
    if n < all {
      StartIsBest(children, tail, n, all - 1);
    }
  }

  function Before(tail: string, index: nat): seq<Piece>
    requires index <= |tail|
  {
    if index > 0 then [Plain(tail[..index])] else []
  }

  /** Every child is matched anew against every tail. */
  function Scan(children: seq<Pattern>, tail: string): seq<Piece>
    requires NonEmpty(children)
    decreases |tail|
  {
    var b := Best(children, tail, |children|);
    if b.None? then Before(tail, |tail|)
    else
      var (i, m) := b.value;
      assert Within(m, tail);
      Before(tail, m.index) + [Built(i, tail[m.index..m.index + m.length])] + Scan(children, tail[m.index + m.length..])
  }

  /** A piece for a child is its whole match in the text, the leftmost one and the earliest child's on ties. */
  ghost predicate IsCut(children: seq<Pattern>, tail: string, before: string, piece: Piece) {
    && piece.Built? && piece.child < |children| && children[piece.child](tail).Some?
    && var m := children[piece.child](tail).value;
       && m.index == |before| && before + piece.text <= tail && |piece.text| == m.length
       && forall i | 0 <= i < |children| && children[i](tail).Some? ::
            m.index <= children[i](tail).value.index && (m.index == children[i](tail).value.index ==> piece.child <= i)
  }

  /** How a text is cut up: a piece for a child, what lies before it plain, and so on; all is plain when no child matches. */
  ghost predicate CutsUp(children: seq<Pattern>, tail: string, pieces: seq<Piece>)
    decreases |pieces|
  {
    if pieces == [] || pieces == [Plain(tail)] then
      (pieces == [] <==> tail == "") && forall i | 0 <= i < |children| :: children[i](tail).None?
    else if pieces[0].Built? then
      IsCut(children, tail, "", pieces[0]) && CutsUp(children, tail[|pieces[0].text|..], pieces[1..])
    else
      && |pieces| > 1 && pieces[0].text != "" && IsCut(children, tail, pieces[0].text, pieces[1])
      && CutsUp(children, tail[|pieces[0].text| + |pieces[1].text|..], pieces[2..])
  }

  /** The scan cuts its text up in this way. */
  lemma {:induction false} ScanCutsUp(children: seq<Pattern>, tail: string)
    requires NonEmpty(children)
    ensures CutsUp(children, tail, Scan(children, tail))
    decreases |tail|
  {
    hide NonEmpty, Best, IsCut;
    var b := Best(children, tail, |children|);
    BestIsLeftmost(children, tail, |children|);
    if b.Some? {
      var (i, m) := b.value;
      assert Within(m, tail) by { MatchWithin(children, i, tail); }
      var rest := Scan(children, tail[m.index + m.length..]);
      ScanCutsUp(children, tail[m.index + m.length..]);
      var built := Built(i, tail[m.index..m.index + m.length]);
      assert IsCut(children, tail, tail[..m.index], built) by { BestIsCut(children, tail); }
      hide Scan;
      OneMoreCut(children, tail, tail[..m.index], built, rest);
    } else {
      assert tail[..|tail|] == tail;
    }
  }

  lemma BestIsCut(children: seq<Pattern>, tail: string)
    requires NonEmpty(children) && Best(children, tail, |children|).Some?
    ensures var (i, m) := Best(children, tail, |children|).value;
            Within(m, tail) && IsCut(children, tail, tail[..m.index], Built(i, tail[m.index..m.index + m.length]))
  {
    hide Best;
    BestIsLeftmost(children, tail, |children|);
    var (i, m) := Best(children, tail, |children|).value;
    assert tail[..m.index] + tail[m.index..m.index + m.length] == tail[..m.index + m.length];
  }

  lemma OneMoreCut(children: seq<Pattern>, tail: string, before: string, built: Piece, rest: seq<Piece>)
    requires built.Built? && IsCut(children, tail, before, built) && built.text != "" && |before| + |built.text| <= |tail|
    requires CutsUp(children, tail[|before| + |built.text|..], rest)
    ensures CutsUp(children, tail, (if |before| > 0 then [Plain(before)] else []) + [built] + rest)
  {
    hide IsCut;
    if before == "" {
      var pieces := [built] + rest;
      assert pieces[0] == built && pieces[1..] == rest && [] + [built] + rest == pieces;
      assert CutsUp(children, tail, pieces);
    } else {
      var pieces := [Plain(before)] + [built] + rest;
      assert pieces[0] == Plain(before) && pieces[1] == built && pieces[2..] == rest;
      assert CutsUp(children, tail, pieces);
    }
  }

  lemma MatchWithin(children: seq<Pattern>, i: nat, tail: string)
    requires NonEmpty(children) && i < |children| && children[i](tail).Some?
    ensures Within(children[i](tail).value, tail)
  {
  }

  /** And no other pieces do. */
  lemma {:induction false} CutsUpOnlySo(children: seq<Pattern>, tail: string, pieces: seq<Piece>)
    requires NonEmpty(children) && CutsUp(children, tail, pieces)
    ensures pieces == Scan(children, tail)
    decreases |pieces|
  {
    hide NonEmpty, Best, IsCut;
    if pieces == [] || pieces == [Plain(tail)] {
      BestIsLeftmost(children, tail, |children|);
      assert tail[..|tail|] == tail;
    } else {
      var k := if pieces[0].Built? then 0 else 1;
      var before := if k == 0 then "" else pieces[0].text;
      var rest := pieces[k + 1..];
      assert IsCut(children, tail, before, pieces[k]);
      CutIsBest(children, tail, before, pieces[k]);
      var m := children[pieces[k].child](tail).value;
      CutsUpOnlySo(children, tail[m.index + m.length..], rest);
      assert pieces == Before(tail, m.index) + [pieces[k]] + rest;
    }
  }

  lemma CutIsBest(children: seq<Pattern>, tail: string, before: string, piece: Piece)
    requires NonEmpty(children) && IsCut(children, tail, before, piece)
    ensures piece.Built? && piece.child < |children| && children[piece.child](tail).Some?
    ensures var m := children[piece.child](tail).value;
            && Best(children, tail, |children|) == Some((piece.child, m)) && Within(m, tail)
            && before == tail[..m.index] && piece.text == tail[m.index..m.index + m.length]
  {
    hide Best;
    BestIsLeftmost(children, tail, |children|);
    MatchWithin(children, piece.child, tail);
    var all := before + piece.text;
    assert all == tail[..|all|];
    assert all[..|before|] == before && all[|before|..] == piece.text;
  }

  /** The text of the pieces in order. */
  function Flatten(pieces: seq<Piece>): string {
    if pieces == [] then "" else pieces[0].text + Flatten(pieces[1..])
  }

  lemma Regroup(a: string, b: string, c: string)
    ensures a + (b + c) == a + b + c
  {
  }

  lemma {:induction false} FlattenOfBoth(a: seq<Piece>, b: seq<Piece>)
    ensures Flatten(a + b) == Flatten(a) + Flatten(b)
    decreases |a|
  {
    if a == [] {
      assert a + b == b;
    } else {
      assert (a + b)[1..] == a[1..] + b;
      FlattenOfBoth(a[1..], b);
      Regroup(a[0].text, Flatten(a[1..]), Flatten(b));
    }
  }

  // The cache -----------------------------------------------------------------------------------------------------

  /** A slot agrees with its pattern on the tail, or says nothing. */
  predicate Agrees(slot: Slot, p: Pattern, tail: string) {
    match slot
    case Unknown => true
    case NoMatch => p(tail).None?
    case Found(m) => p(tail) == Some(m)
  }

  function Shifted(slot: Slot, chopped: nat): Slot {
    if !slot.Found? then slot
    else if slot.m.index >= chopped then Found(Match(slot.m.index - chopped, slot.m.length))
    else Unknown
  }

  /** The slots never lead outside the tail. */
  predicate Usable(slots: seq<Slot>, tail: string) {
    forall k | 0 <= k < |slots| && slots[k].Found? :: Within(slots[k].m, tail)
  }

  /** The slots agree with the patterns on the tail. */
  predicate Right(children: seq<Pattern>, slots: seq<Slot>, tail: string)
    requires |slots| == |children|
  {
    forall k | 0 <= k < |slots| :: Agrees(slots[k], children[k], tail)
  }

  function Filled(slot: Slot, p: Pattern, tail: string): Slot {
    if !slot.Unknown? then slot else if p(tail).Some? then Found(p(tail).value) else NoMatch
  }

  lemma FilledKeeps(children: seq<Pattern>, slots: seq<Slot>, i: nat, tail: string)
    requires NonEmpty(children) && |slots| == |children| && i < |children| && Usable(slots, tail)
    ensures Usable(slots[i := Filled(slots[i], children[i], tail)], tail)
    ensures Right(children, slots, tail) ==> Right(children, slots[i := Filled(slots[i], children[i], tail)], tail)
    ensures Right(children, slots, tail) ==>
              (Filled(slots[i], children[i], tail) ==
               if children[i](tail).Some? then Found(children[i](tail).value) else NoMatch)
  {
  }

  function AllShifted(slots: seq<Slot>, chopped: nat): (r: seq<Slot>)
    ensures |r| == |slots|
  {
    seq(|slots|, i requires 0 <= i < |slots| => Shifted(slots[i], chopped))
  }

  /** Shifting the cache keeps it usable, and right for stable patterns. */
  lemma ShiftedKeeps(children: seq<Pattern>, slots: seq<Slot>, tail: string, chopped: nat)
    requires |slots| == |children| && chopped <= |tail| && Usable(slots, tail)
    ensures Usable(AllShifted(slots, chopped), tail[chopped..])
    ensures Stable(children) && Right(children, slots, tail) ==>
              Right(children, AllShifted(slots, chopped), tail[chopped..])
  {
    hide Stable;
    if Stable(children) && Right(children, slots, tail) {
      forall k | 0 <= k < |slots| ensures Agrees(Shifted(slots[k], chopped), children[k], tail[chopped..]) {
        ShiftedAgrees(children, k, slots[k], tail, chopped);
      }
    }
  }

  lemma ShiftedAgrees(children: seq<Pattern>, i: nat, slot: Slot, tail: string, chopped: nat)
    requires Stable(children) && i < |children| && chopped <= |tail| && Agrees(slot, children[i], tail)
    ensures Agrees(Shifted(slot, chopped), children[i], tail[chopped..])
  {
    assert StableAt(children[i], tail, chopped);
  }

  // The scan with a cache -----------------------------------------------------------------------------------------

  /** The best match by the cache from child `i` on, and the cache, filled up to a match at the start of the text. */
  function Look(children: seq<Pattern>, slots: seq<Slot>, tail: string, i: nat, best: Option<(nat, Match)>)
    : (r: (Option<(nat, Match)>, seq<Slot>))
    requires |slots| == |children| && i <= |children|
    ensures |r.1| == |children|
    decreases |children| - i
  {
    if i == |children| then (best, slots)
    else
      var slots' := slots[i := Filled(slots[i], children[i], tail)];
      if slots'[i].Found? && (best.None? || best.value.1.index > slots'[i].m.index) then
        var better := Some((i, slots'[i].m));
        if slots'[i].m.index == 0 then (better, slots') else Look(children, slots', tail, i + 1, better)
      else Look(children, slots', tail, i + 1, best)
  }

  lemma {:induction false} LookIsUsable(children: seq<Pattern>, slots: seq<Slot>, tail: string, i: nat, best: Option<(nat, Match)>)
    requires NonEmpty(children) && |slots| == |children| && i <= |children| && Usable(slots, tail)
    requires best.Some? ==> best.value.0 < |children| && Within(best.value.1, tail)
    ensures var r := Look(children, slots, tail, i, best);
            Usable(r.1, tail) && (r.0.Some? ==> r.0.value.0 < |children| && Within(r.0.value.1, tail))
    decreases |children| - i
  {
    hide NonEmpty, Usable, Within;
    if i < |children| {
      FilledKeeps(children, slots, i, tail);
      var slots' := slots[i := Filled(slots[i], children[i], tail)];
      if slots'[i].Found? && (best.None? || best.value.1.index > slots'[i].m.index) {
        UsableAt(slots', i, tail);
        LookIsUsable(children, slots', tail, i + 1, Some((i, slots'[i].m)));
      } else {
        LookIsUsable(children, slots', tail, i + 1, best);
      }
    }
  }

  /** What the scan does for any patterns: known matches are kept, and a child that found none is not asked again. */
  function CachedScan(children: seq<Pattern>, slots: seq<Slot>, tail: string): seq<Piece>
    requires NonEmpty(children) && |slots| == |children| && Usable(slots, tail)
    decreases |tail|
  {
    LookIsUsable(children, slots, tail, 0, None);
    var (best, slots') := Look(children, slots, tail, 0, None);
    if best.None? then Before(tail, |tail|)
    else
      var (i, m) := best.value;
      var chopped := m.index + m.length;
      ShiftedKeeps(children, slots', tail, chopped);
      Before(tail, m.index) + [Built(i, tail[m.index..chopped])]
      + CachedScan(children, AllShifted(slots', chopped), tail[chopped..])
  }

  /** A child found a match of this length here, in the text from some place on. */
  ghost predicate WasFound(children: seq<Pattern>, text: string, i: nat, at: nat, length: nat) {
    i < |children| && exists from: nat :: from <= at && FoundFrom(children[i], text, from, at, length)
  }

  ghost predicate FoundFrom(p: Pattern, text: string, from: nat, at: nat, length: nat)
    requires from <= at
  {
    at <= |text| && p(text[from..]) == Some(Match(at - from, length))
  }

  ghost predicate Remembered(children: seq<Pattern>, text: string, pos: nat, slots: seq<Slot>) {
    forall k | 0 <= k < |slots| && slots[k].Found? :: WasFound(children, text, k, pos + slots[k].m.index, slots[k].m.length)
  }

  ghost predicate AllFound(children: seq<Pattern>, text: string, pos: nat, pieces: seq<Piece>)
    decreases |pieces|
  {
    pieces == []
    || ((pieces[0].Built? ==> WasFound(children, text, pieces[0].child, pos, |pieces[0].text|))
        && AllFound(children, text, pos + |pieces[0].text|, pieces[1..]))
  }

  lemma {:induction false} LookRemembers(children: seq<Pattern>, slots: seq<Slot>, text: string, pos: nat, i: nat, best: Option<(nat, Match)>)
    requires NonEmpty(children) && |slots| == |children| && i <= |children| && pos <= |text| && Remembered(children, text, pos, slots)
    requires best.Some? ==> WasFound(children, text, best.value.0, pos + best.value.1.index, best.value.1.length)
    ensures var r := Look(children, slots, text[pos..], i, best);
            && Remembered(children, text, pos, r.1)
            && (r.0.Some? ==> WasFound(children, text, r.0.value.0, pos + r.0.value.1.index, r.0.value.1.length))
    decreases |children| - i
  {
    hide NonEmpty, WasFound;
    if i < |children| {
      var slots' := slots[i := Filled(slots[i], children[i], text[pos..])];
      if slots'[i].Found? {
        FilledWasFound(children, slots[i], text, pos, i, slots'[i].m);
      }
      if slots'[i].Found? && (best.None? || best.value.1.index > slots'[i].m.index) {
        LookRemembers(children, slots', text, pos, i + 1, Some((i, slots'[i].m)));
      } else {
        LookRemembers(children, slots', text, pos, i + 1, best);
      }
    }
  }

  lemma FilledWasFound(children: seq<Pattern>, slot: Slot, text: string, pos: nat, i: nat, m: Match)
    requires NonEmpty(children) && i < |children| && pos <= |text|
    requires slot.Found? ==> WasFound(children, text, i, pos + slot.m.index, slot.m.length)
    requires Filled(slot, children[i], text[pos..]) == Found(m)
    ensures WasFound(children, text, i, pos + m.index, m.length)
  {
    if slot.Unknown? {
      MatchWithin(children, i, text[pos..]);
      assert FoundFrom(children[i], text, pos, pos + m.index, m.length);
    }
  }

  /** Whatever the patterns, a piece for a child is a whole match that the child has found at this very place. */
  lemma {:induction false} CachedPiecesWereFound(children: seq<Pattern>, slots: seq<Slot>, text: string, pos: nat)
    requires NonEmpty(children) && |slots| == |children| && pos <= |text| && Usable(slots, text[pos..])
    requires Remembered(children, text, pos, slots)
    ensures AllFound(children, text, pos, CachedScan(children, slots, text[pos..]))
    decreases |text| - pos
  {
    hide NonEmpty, WasFound, Look;
    var tail := text[pos..];
    LookIsUsable(children, slots, tail, 0, None);
    LookRemembers(children, slots, text, pos, 0, None);
    var (best, slots') := Look(children, slots, tail, 0, None);
    if best.Some? {
      var (i, m) := best.value;
      var chopped := m.index + m.length;
      ShiftedKeeps(children, slots', tail, chopped);
      var shifted := AllShifted(slots', chopped);
      assert tail[chopped..] == text[pos + chopped..];
      assert Remembered(children, text, pos + chopped, shifted);
      CachedPiecesWereFound(children, shifted, text, pos + chopped);
      var rest := CachedScan(children, shifted, text[pos + chopped..]);
      var built := Built(i, tail[m.index..chopped]);
      hide CachedScan;
      OneMoreFound(children, text, pos, Before(tail, m.index), built, rest);
    } else {
      assert Before(tail, |tail|) == [] || Before(tail, |tail|)[1..] == [];
    }
  }

  lemma OneMoreFound(children: seq<Pattern>, text: string, pos: nat, before: seq<Piece>, built: Piece, rest: seq<Piece>)
    requires before == [] || (|before| == 1 && before[0].Plain?)
    requires var at := pos + if before == [] then 0 else |before[0].text|;
             && built.Built? && WasFound(children, text, built.child, at, |built.text|)
             && AllFound(children, text, at + |built.text|, rest)
    ensures AllFound(children, text, pos, before + [built] + rest)
  {
    hide WasFound;
    var more := [built] + rest;
    assert more[1..] == rest;
    assert before + [built] + rest == before + more;
    if before == [] {
      assert before + more == more;
    } else {
      assert (before + more)[0] == before[0] && (before + more)[1..] == more;
    }
  }

  function Fresh(n: nat): (slots: seq<Slot>)
    ensures |slots| == n && forall k | 0 <= k < n :: slots[k] == Unknown
  {
    seq(n, _ => Unknown)
  }

  lemma FreshRemembers(children: seq<Pattern>, text: string)
    requires NonEmpty(children)
    ensures Usable(Fresh(|children|), text) && AllFound(children, text, 0, CachedScan(children, Fresh(|children|), text))
  {
    assert text[0..] == text;
    CachedPiecesWereFound(children, Fresh(|children|), text, 0);
  }

  class Node {
    var pieces: seq<Piece>

    constructor ()
      ensures pieces == []
    {
      pieces := [];
    }
  }

  class Rule {
    const children: seq<Pattern>

    constructor (children: seq<Pattern>)
      ensures this.children == children
    {
      this.children := children;
    }

    /** The best match according to the cache, which is filled in on the way. */
    method Leftmost(tail: string, matches: array<Slot>) returns (best: Option<(nat, Match)>)
      requires NonEmpty(children) && matches.Length == |children| && Usable(matches[..], tail)
      modifies matches
      ensures Usable(matches[..], tail)
      ensures best.Some? ==> best.value.0 < |children| && Within(best.value.1, tail)
      ensures (best, matches[..]) == Look(children, old(matches[..]), tail, 0, None)
      ensures Right(children, old(matches[..]), tail) ==>
                best == Best(children, tail, |children|) && Right(children, matches[..], tail)
    {
      hide NonEmpty, Usable, Right, Best;
      best := None;
      ghost var slots := matches[..];
      LookIsUsable(children, slots, tail, 0, None);
      if Right(children, slots, tail) {
        RightLook(children, slots, tail);
      }
      var i := 0;
      while i < |children|
        invariant i <= |children|
        invariant Look(children, matches[..], tail, i, best) == Look(children, slots, tail, 0, None)
      {
        Fill(tail, matches, i);
        if matches[i].Found? && (best.None? || best.value.1.index > matches[i].m.index) {
          best := Some((i, matches[i].m));
          if best.value.1.index == 0 {
            break;
          }
        }
        i := i + 1;
      }
    }

    method Fill(tail: string, matches: array<Slot>, i: nat)
      requires matches.Length == |children| && i < |children|
      modifies matches
      ensures matches[..] == old(matches[..])[i := Filled(old(matches[i]), children[i], tail)]
    {
      if matches[i].Unknown? {
        var m := children[i](tail);
        matches[i] := if m.Some? then Found(m.value) else NoMatch;
      }
    }

    /** After a cut, cached matches beyond it move with the tail and those before it are forgotten. */
    method Shift(matches: array<Slot>, chopped: nat)
      modifies matches
      ensures matches[..] == AllShifted(old(matches[..]), chopped)
    {
      for i := 0 to matches.Length
        invariant forall k | 0 <= k < i :: matches[k] == Shifted(old(matches[k]), chopped)
        invariant forall k | i <= k < matches.Length :: matches[k] == old(matches[k])
      {
        if matches[i].Found? {
          if matches[i].m.index >= chopped {
            matches[i] := Found(Match(matches[i].m.index - chopped, matches[i].m.length));
          } else {
            matches[i] := Unknown;
          }
        }
      }
    }

    /**
     Cuts a text into pieces: those of the scan by the cache, which make up the text and are whole matches found
     where they are, whatever the patterns; and when the patterns are stable, the text is cut up at leftmost matches.
     */
    method Apply(node: Node, data: string)
      requires NonEmpty(children)
      modifies node
      ensures old(node.pieces) <= node.pieces
      ensures Flatten(node.pieces[|old(node.pieces)|..]) == data
      ensures node.pieces == old(node.pieces) + CachedScan(children, Fresh(|children|), data)
      ensures AllFound(children, data, 0, node.pieces[|old(node.pieces)|..])
      ensures Stable(children) ==> CutsUp(children, data, node.pieces[|old(node.pieces)|..])
      ensures Stable(children) ==> node.pieces == old(node.pieces) + Scan(children, data)
    {
      hide Going, Finished, Look, Usable, Right, Shifted, Stable, NonEmpty, CachedScan, Scan, Flatten, AllFound, CutsUp;
      var tail := data;
      var matches := new Slot[|children|](_ => Unknown);
      assert matches[..] == Fresh(|children|);
      ghost var before, done := node.pieces, [];
      GoingFromTheStart(children, data);
      while true
        invariant node.pieces == before + done
        invariant Usable(matches[..], tail) && Going(children, data, done, matches[..], tail)
        decreases |tail|
      {
        ghost var slots := matches[..];
        var best := Leftmost(tail, matches);
        GoingOn(children, data, done, slots, tail);
        var pos := if best.Some? then best.value.1.index else |tail|;
        if pos > 0 {
          node.pieces := node.pieces + [Plain(tail[..pos])];
        }
        ghost var cut := Before(tail, pos);
        assert node.pieces == before + (done + cut);
        if best.None? {
          done := done + cut;
          break;
        }
        var (rule, m) := best.value;
        var chopped := m.index + m.length;
        node.pieces := node.pieces + [Built(rule, tail[m.index..chopped])];
        done := done + (cut + [Built(rule, tail[m.index..chopped])]);
        Shift(matches, chopped);
        tail := tail[chopped..];
      }
      FinishedSays(children, data, done);
      FreshRemembers(children, data);
      ScanCutsUp(children, data);
      assert node.pieces[|before|..] == done;
    }
  }

  /** What has been cut off makes up the text with the tail, and the scans go on as they would. */
  ghost predicate Going(children: seq<Pattern>, data: string, done: seq<Piece>, slots: seq<Slot>, tail: string)
    requires NonEmpty(children) && |slots| == |children| && Usable(slots, tail)
  {
    && Flatten(done) + tail == data
    && done + CachedScan(children, slots, tail) == CachedScan(children, Fresh(|children|), data)
    && (Stable(children) ==> done + Scan(children, tail) == Scan(children, data) && Right(children, slots, tail))
  }

  ghost predicate Finished(children: seq<Pattern>, data: string, done: seq<Piece>)
    requires NonEmpty(children)
  {
    && Flatten(done) == data && done == CachedScan(children, Fresh(|children|), data)
    && (Stable(children) ==> done == Scan(children, data))
  }

  lemma FinishedSays(children: seq<Pattern>, data: string, done: seq<Piece>)
    requires NonEmpty(children) && Finished(children, data, done)
    ensures Flatten(done) == data && done == CachedScan(children, Fresh(|children|), data)
    ensures Stable(children) ==> done == Scan(children, data)
  {
  }

  lemma GoingFromTheStart(children: seq<Pattern>, data: string)
    requires NonEmpty(children)
    ensures Usable(Fresh(|children|), data) && Going(children, data, [], Fresh(|children|), data)
  {
    hide CachedScan, Scan, Stable, NonEmpty;
    FreshIsRight(children, data);
    EmptyFlatten();
    assert [] + CachedScan(children, Fresh(|children|), data) == CachedScan(children, Fresh(|children|), data);
    assert [] + Scan(children, data) == Scan(children, data);
  }

  lemma RightLook(children: seq<Pattern>, slots: seq<Slot>, tail: string)
    requires NonEmpty(children) && |slots| == |children| && Usable(slots, tail) && Right(children, slots, tail)
    ensures var r := Look(children, slots, tail, 0, None);
            r.0 == Best(children, tail, |children|) && Right(children, r.1, tail)
  {
    LookIsBest(children, slots, tail, 0, None);
  }

  lemma {:induction false} LookIsBest(children: seq<Pattern>, slots: seq<Slot>, tail: string, i: nat, best: Option<(nat, Match)>)
    requires NonEmpty(children) && |slots| == |children| && Usable(slots, tail) && Right(children, slots, tail)
    requires i <= |children| && best == Best(children, tail, i)
    ensures var r := Look(children, slots, tail, i, best);
            r.0 == Best(children, tail, |children|) && Right(children, r.1, tail)
    decreases |children| - i
  {
    hide NonEmpty, Usable, Right;
    if i < |children| {
      FilledKeeps(children, slots, i, tail);
      var slots' := slots[i := Filled(slots[i], children[i], tail)];
      if slots'[i].Found? && (best.None? || best.value.1.index > slots'[i].m.index) {
        if slots'[i].m.index == 0 {
          StartIsBest(children, tail, i + 1, |children|);
        } else {
          LookIsBest(children, slots', tail, i + 1, Some((i, slots'[i].m)));
        }
      } else {
        LookIsBest(children, slots', tail, i + 1, best);
      }
    }
  }

  /** One round: either the text is used up, or a cut is made and the scan goes on with the tail. */
  lemma GoingOn(children: seq<Pattern>, data: string, done: seq<Piece>, slots: seq<Slot>, tail: string)
    requires NonEmpty(children) && |slots| == |children| && Usable(slots, tail) && Going(children, data, done, slots, tail)
    ensures var r := Look(children, slots, tail, 0, None);
            && (r.0.None? ==> Finished(children, data, done + Before(tail, |tail|)))
            && (r.0.Some? ==>
                  var (child, m) := r.0.value;
                  var chopped := m.index + m.length;
                  && Within(m, tail) && Usable(AllShifted(r.1, chopped), tail[chopped..])
                  && Going(children, data, done + (Before(tail, m.index) + [Built(child, tail[m.index..chopped])]),
                           AllShifted(r.1, chopped), tail[chopped..]))
  {
    hide NonEmpty, Usable, Look, Flatten, Scan, CachedScan, Stable, Right, Best;
    LookIsUsable(children, slots, tail, 0, None);
    CachedStep(children, done, slots, tail);
    var r := Look(children, slots, tail, 0, None);
    if Stable(children) {
      RightLook(children, slots, tail);
    }
    if r.0.None? {
      EndText(children, done, tail);
    } else {
      var m := r.0.value.1;
      CutText(done, tail, m, r.0.value.0);
      if Stable(children) {
        CutScan(children, done, tail, m, r.0.value.0);
      }
      ShiftedKeeps(children, r.1, tail, m.index + m.length);
    }
  }

  lemma FreshIsRight(children: seq<Pattern>, tail: string)
    ensures Usable(Fresh(|children|), tail) && Right(children, Fresh(|children|), tail)
  {
  }

  lemma EndText(children: seq<Pattern>, done: seq<Piece>, tail: string)
    requires NonEmpty(children)
    ensures Flatten(done + Before(tail, |tail|)) == Flatten(done) + tail
    ensures Best(children, tail, |children|).None? ==> Scan(children, tail) == Before(tail, |tail|)
  {
    FlattenOfBoth(done, Before(tail, |tail|));
    FlattenOfBefore(tail, |tail|);
    assert tail[..|tail|] == tail;
  }

  lemma CutScan(children: seq<Pattern>, done: seq<Piece>, tail: string, m: Match, child: nat)
    requires NonEmpty(children) && Best(children, tail, |children|) == Some((child, m)) && Within(m, tail)
    ensures var chopped := m.index + m.length;
            var cut := Before(tail, m.index) + [Built(child, tail[m.index..chopped])];
            (done + cut) + Scan(children, tail[chopped..]) == done + Scan(children, tail)
  {
    hide Best, NonEmpty;
    var chopped := m.index + m.length;
    var cut := Before(tail, m.index) + [Built(child, tail[m.index..chopped])];
    assert Scan(children, tail) == cut + Scan(children, tail[chopped..]);
    assert (done + cut) + Scan(children, tail[chopped..]) == done + (cut + Scan(children, tail[chopped..]));
  }

  /** One cut of the scan by the cache. */
  lemma CachedStep(children: seq<Pattern>, done: seq<Piece>, slots: seq<Slot>, tail: string)
    requires NonEmpty(children) && |slots| == |children| && Usable(slots, tail)
    ensures var r := Look(children, slots, tail, 0, None);
            && (r.0.None? ==> done + Before(tail, |tail|) == done + CachedScan(children, slots, tail))
            && (r.0.Some? ==>
                  var m := r.0.value.1;
                  var chopped := m.index + m.length;
                  && Within(m, tail) && Usable(AllShifted(r.1, chopped), tail[chopped..])
                  && (done + (Before(tail, m.index) + [Built(r.0.value.0, tail[m.index..chopped])]))
                     + CachedScan(children, AllShifted(r.1, chopped), tail[chopped..])
                     == done + CachedScan(children, slots, tail))
  {
    hide Look, NonEmpty, Usable;
    LookIsUsable(children, slots, tail, 0, None);
    var r := Look(children, slots, tail, 0, None);
    if r.0.Some? {
      var m := r.0.value.1;
      var chopped := m.index + m.length;
      ShiftedKeeps(children, r.1, tail, chopped);
      var cut := Before(tail, m.index) + [Built(r.0.value.0, tail[m.index..chopped])];
      var more := CachedScan(children, AllShifted(r.1, chopped), tail[chopped..]);
      assert (done + cut) + more == done + (cut + more);
    }
  }

  lemma UsableAt(slots: seq<Slot>, i: nat, tail: string)
    requires Usable(slots, tail) && i < |slots| && slots[i].Found?
    ensures Within(slots[i].m, tail)
  {
  }

  lemma EmptyFlatten()
    ensures Flatten([]) == ""
  {
  }

  lemma FlattenOfBefore(tail: string, pos: nat)
    requires pos <= |tail|
    ensures Flatten(Before(tail, pos)) == tail[..pos]
  {
    if pos > 0 { assert Before(tail, pos)[1..] == []; }
  }

  /** A cut moves text from the tail to the pieces. */
  lemma CutText(done: seq<Piece>, tail: string, m: Match, child: nat)
    requires Within(m, tail)
    ensures var chopped := m.index + m.length;
            var cut := Before(tail, m.index) + [Built(child, tail[m.index..chopped])];
            Flatten(done + cut) + tail[chopped..] == Flatten(done) + tail
  {
    hide Flatten, Before;
    var chopped := m.index + m.length;
    var built := Built(child, tail[m.index..chopped]);
    FlattenOfBoth(done, Before(tail, m.index) + [built]);
    FlattenOfBoth(Before(tail, m.index), [built]);
    FlattenOfBefore(tail, m.index);
    FlattenOfOne(built);
    assert tail == tail[..m.index] + tail[m.index..chopped] + tail[chopped..];
    RegroupFour(Flatten(done), tail[..m.index], tail[m.index..chopped], tail[chopped..]);
  }

  lemma RegroupFour(a: string, b: string, c: string, d: string)
    ensures a + (b + c) + d == a + (b + c + d)
  {
  }

  lemma FlattenOfOne(piece: Piece)
    ensures Flatten([piece]) == piece.text
  {
    assert [piece][1..] == [];
    assert piece.text + "" == piece.text;
  }

  // A pattern that looks at what precedes it ------------------------------------------------------------------------

  /** An "a" at the start of the text, and nothing else. */
  function Anchored(s: string): Option<Match> {
    if s != "" && s[0] == 'a' then Some(Match(0, 1)) else None
  }

  /** A "b" at the start of the text. */
  function Other(s: string): Option<Match> {
    if s != "" && s[0] == 'b' then Some(Match(0, 1)) else None
  }

  /** Anchored finds nothing in "ba", so it is not asked again in "a", where it would match. */
  lemma AnchoredIsMissed()
    ensures var children := [Anchored, Other];
            && NonEmpty(children) && !Stable(children)
            && Scan(children, "ba") == [Built(1, "b"), Built(0, "a")]
            && CachedScan(children, Fresh(2), "ba") == [Built(1, "b"), Plain("a")]
  {
    var children := [Anchored, Other];
    assert "ba"[1..] == "a" && "ba"[0..1] == "b" && "a"[0..1] == "a" && "a"[1..] == "";
    assert !StableAt(Anchored, "ba", 1);
    assert !Stable(children) by { assert children[0] == Anchored; }
    AnchoredScan(children);
    AnchoredCached(children);
  }

  lemma AnchoredScan(children: seq<Pattern>)
    requires children == [Anchored, Other] && NonEmpty(children)
    ensures Scan(children, "ba") == [Built(1, "b"), Built(0, "a")]
  {
    hide NonEmpty;
    assert "ba"[1..] == "a" && "ba"[0..1] == "b" && "a"[0..1] == "a" && "a"[1..] == "" && |"ba"| == 2;
    assert Best(children, "ba", 1) == None && Best(children, "ba", 2) == Some((1, Match(0, 1)));
    assert Best(children, "a", 1) == Some((0, Match(0, 1))) && Best(children, "a", 2) == Some((0, Match(0, 1)));
    assert Best(children, "", 1) == None && Best(children, "", 2) == None;
    assert Scan(children, "") == [];
    assert Scan(children, "a") == [] + [Built(0, "a")] + Scan(children, "");
    assert Scan(children, "ba") == [] + [Built(1, "b")] + Scan(children, "a");
  }

  lemma AnchoredCached(children: seq<Pattern>)
    requires children == [Anchored, Other] && NonEmpty(children)
    ensures CachedScan(children, Fresh(2), "ba") == [Built(1, "b"), Plain("a")]
  {
    hide NonEmpty;
    assert "ba"[1..] == "a" && "ba"[0..1] == "b" && "a"[..1] == "a" && |"ba"| == 2;
    var s0 := Fresh(2);
    var s1 := s0[0 := NoMatch];
    var s2 := s1[1 := Found(Match(0, 1))];
    assert Look(children, s1, "ba", 1, None) == (Some((1, Match(0, 1))), s2);
    assert Look(children, s0, "ba", 0, None) == (Some((1, Match(0, 1))), s2);
    var t0 := AllShifted(s2, 1);
    assert t0 == [NoMatch, Unknown];
    var t1 := t0[1 := NoMatch];
    assert t0[0 := NoMatch] == t0;
    assert Look(children, t1, "a", 2, None) == (None, t1);
    assert Look(children, t0, "a", 1, None) == (None, t1);
    assert Look(children, t0, "a", 0, None) == (None, t1);
    assert CachedScan(children, t0, "a") == [Plain("a")];
    assert CachedScan(children, s0, "ba") == [] + [Built(1, "b")] + CachedScan(children, t0, "a");
  }
}
