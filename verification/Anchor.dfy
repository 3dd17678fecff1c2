/** Anchors: positions that follow the edits of a document. */
module Anchors {
  import opened DocText
  import opened FlatText

  /** A delta as an edit of the text: at an offset, this many characters go and this many come. */
  datatype TextEdit = TextEdit(offset: nat, removed: nat, inserted: nat)

  function TermLength(lines: Lines, k: nat): nat {
    RowStart(lines, |lines|, k)
  }

  function EditOf(lines: Lines, d: Delta, k: nat): TextEdit {
    var o, o' := Offset(lines, d.range.start, k), Offset(lines, d.range.end, k);
    match d
    case InsertLines(_, ins) => TextEdit(o, 0, TermLength(ins, k))
    case InsertText(_, text) => TextEdit(o, 0, if IsNewLine(text) then k else |text|)
    case RemoveLines(_, _, _) => TextEdit(o, if o <= o' then o' - o else 0, 0)
    case RemoveText(_, _) => TextEdit(o, if o <= o' then o' - o else 0, 0)
  }

  /** Where a marker at offset `a` of a plain string goes. */
  function Follow(a: nat, e: TextEdit): nat {
    if e.inserted > 0 then
      if a >= e.offset then a + e.inserted else a
    else if a <= e.offset then a
    else if a <= e.offset + e.removed then e.offset
    else a - e.removed
  }

  class Anchor {
    var row: nat
    var column: nat

    constructor (row: nat, column: nat)
      ensures this.row == row && this.column == column
    {
      this.row, this.column := row, column;
    }

    function At(): Position
      reads this
    {
      Position(row, column)
    }

    /** The anchor stays a valid position and its offset moves as a marker in a plain string does. */
    method OnChange(delta: Delta, ghost lines: Lines, ghost k: nat)
      requires Fits(lines, delta) && ValidPosition(lines, At()) && k > 0
      modifies this
      ensures ValidPosition(ApplyDelta(lines, delta), At())
      ensures Offset(ApplyDelta(lines, delta), At(), k) == Follow(Offset(lines, old(At()), k), EditOf(lines, delta, k))
    {
      var range := delta.range;
      hide Fits, ApplyDelta, Offset, Follow, EditOf;
      TargetFollows(lines, delta, At(), k);
      FitsShape(lines, delta);
      if range.start.row == range.end.row && range.start.row != row {
        return;
      }
      if range.start.row > row {
        return;
      }
      if range.start.row == row && range.start.column > column {
        return;
      }
      var newRow, newColumn: int := row, column;
      match delta {
        case InsertText(_, _) =>
          if range.start.row == newRow && range.start.column <= newColumn {
            if range.start.row == range.end.row {
              newColumn := newColumn + (range.end.column - range.start.column);
            } else {
              newColumn := newColumn - range.start.column;
              newRow := newRow + (range.end.row - range.start.row);
            }
          } else if range.start.row != range.end.row && range.start.row < newRow {
            newRow := newRow + (range.end.row - range.start.row);
          }
        case InsertLines(_, _) =>
          if range.start.row <= newRow {
            newRow := newRow + (range.end.row - range.start.row);
          }
        case RemoveText(_, _) =>
          if range.start.row == newRow && range.start.column < newColumn {
            if range.end.column >= newColumn {
              newColumn := range.start.column;
            } else {
              newColumn := Max(0, newColumn - (range.end.column - range.start.column));
            }
          } else if range.start.row != range.end.row && range.start.row < newRow {
            if range.end.row == newRow {
              newColumn := Max(0, newColumn - range.end.column) + range.start.column;
            }
            newRow := newRow - (range.end.row - range.start.row);
          } else if range.end.row == newRow {
            newRow := newRow - (range.end.row - range.start.row);
            newColumn := Max(0, newColumn - range.end.column) + range.start.column;
          }
        case RemoveLines(_, _, _) =>
          if range.start.row <= newRow {
            if range.end.row <= newRow {
              newRow := newRow - (range.end.row - range.start.row);
            } else {
              newRow := range.start.row;
              newColumn := 0;
            }
          }
      }
      row, column := newRow, newColumn;
    }
  }

  function Max(a: int, b: int): int {
    if a >= b then a else b
  }

  // Offsets before and after a delta --------------------------------------------------------------------

  /** The rows of two documents that agree from some row on keep their distances. */
  lemma {:induction false} SuffixDistance(a: Lines, i: nat, b: Lines, j: nat, n: nat, k: nat)
    requires i + n <= |a| && j + n <= |b|
    requires a[i..i + n] == b[j..j + n]
    ensures RowStart(a, i + n, k) - RowStart(a, i, k) == RowStart(b, j + n, k) - RowStart(b, j, k)
  {
    hide RowStart;
    if n > 0 {
      SlicesAgree(a, i, b, j, n);
      SuffixDistance(a, i, b, j, n - 1, k);
      RowStartNext(a, i + n - 1, k);
      RowStartNext(b, j + n - 1, k);
    }
  }

  lemma SlicesAgree(a: Lines, i: nat, b: Lines, j: nat, n: nat)
    requires 0 < n && i + n <= |a| && j + n <= |b|
    requires a[i..i + n] == b[j..j + n]
    ensures a[i..i + n - 1] == b[j..j + n - 1] && a[i + n - 1] == b[j + n - 1]
  {
    SliceEnds(a, i, n, a[i..i + n]);
    SliceEnds(b, j, n, b[j..j + n]);
  }

  lemma SliceEnds(a: Lines, i: nat, n: nat, x: Lines)
    requires 0 < n && i + n <= |a| && x == a[i..i + n]
    ensures x[n - 1] == a[i + n - 1] && x[..n - 1] == a[i..i + n - 1]
  {
    var front := a[i..i + n - 1];
    forall k | 0 <= k < n - 1 ensures x[..n - 1][k] == front[k] {
      assert x[k] == a[i + k];
    }
  }

  /** The position a delta moves an anchor to. */
  function Target(d: Delta, p: Position): Position {
    var s, e := d.range.start, d.range.end;
    match d
    case InsertLines(_, ins) =>
      if s.row <= p.row then Position(p.row + |ins|, p.column) else p
    case InsertText(_, text) =>
      if p.row == s.row && s.column <= p.column then
        if IsNewLine(text) then Position(p.row + 1, p.column - s.column) else Position(p.row, p.column + |text|)
      else if IsNewLine(text) && s.row < p.row then Position(p.row + 1, p.column)
      else p
    case RemoveLines(_, _, _) =>
      if p.row < s.row then p
      else if p.row < e.row then Position(s.row, 0)
      else if s.row <= e.row then Position(p.row - (e.row - s.row), p.column)
      else p
    case RemoveText(_, text) =>
      if IsNewLine(text) then
        if p.row == s.row + 1 then Position(s.row, s.column + p.column)
        else if p.row > s.row then Position(p.row - 1, p.column)
        else p
      else if p.row == s.row && s.column < p.column then
        Position(p.row, if p.column <= e.column || e.column < s.column then s.column else p.column - (e.column - s.column))
      else p
  }

  ghost predicate Follows(lines: Lines, d: Delta, p: Position, q: Position, k: nat) {
    && ValidPosition(ApplyDelta(lines, d), q)
    && Offset(ApplyDelta(lines, d), q, k) == Follow(Offset(lines, p, k), EditOf(lines, d, k))
  }

  lemma TargetFollows(lines: Lines, d: Delta, p: Position, k: nat)
    requires Fits(lines, d) && ValidPosition(lines, p) && k > 0
    ensures Follows(lines, d, p, Target(d, p), k)
  {
    match d
    case InsertLines(_, _) => FollowsInsertLines(lines, d, p, k);
    case InsertText(_, text) =>
      NewLineSpansRows(lines, d);
      if IsNewLine(text) {
        FollowsInsertNewLine(lines, d, p, k);
      } else {
        FollowsInsertInLine(lines, d, p, k);
      }
    case RemoveLines(_, _, _) => FollowsRemoveLines(lines, d, p, k);
    case RemoveText(_, text) =>
      NewLineSpansRows(lines, d);
      if IsNewLine(text) {
        FollowsRemoveNewLine(lines, d, p, k);
      } else {
        FollowsRemoveInLine(lines, d, p, k);
      }
  }

  /** What fitting says about the delta alone. */
  lemma FitsShape(lines: Lines, d: Delta)
    requires Fits(lines, d)
    ensures var s, e := d.range.start, d.range.end;
            match d
            case InsertLines(_, ins) => s.column == 0 && e == Position(s.row + |ins|, 0) && ins != []
            case InsertText(_, text) => e == if IsNewLine(text) then Position(s.row + 1, 0) else Position(s.row, s.column + |text|)
            case RemoveLines(_, _, _) => s.row < e.row && s.column == 0 && e.column == 0
            case RemoveText(_, text) => if IsNewLine(text) then e == Position(s.row + 1, 0) && s.column == |lines[s.row]| && s.row < |lines|
                                        else s.row == e.row && s.column < e.column
  {
    if d.InsertText? || d.RemoveText? {
      NewLineSpansRows(lines, d);
    }
  }

  lemma RowsStay(a: Lines, b: Lines, before: nat, p: Position, k: nat)
    requires before <= |a| && before <= |b| && a[..before] == b[..before]
    requires ValidPosition(a, p) && p.row < before
    ensures ValidPosition(b, p) && Offset(b, p, k) == Offset(a, p, k) && Offset(a, p, k) + k <= RowStart(a, before, k)
  {
    assert a[p.row] == a[..before][p.row] == b[..before][p.row] == b[p.row];
    assert a[..p.row] == a[..before][..p.row] == b[..before][..p.row] == b[..p.row];
    RowStartAgree(a, b, p.row, k);
    RowStartGrows(a, p.row, before, k);
  }

  lemma RowStartMonotonic(lines: Lines, a: nat, b: nat, k: nat)
    requires a <= b
    ensures RowStart(lines, a, k) <= RowStart(lines, b, k)
  {
    if a < b {
      RowStartGrows(lines, a, b, k);
    }
  }

  lemma RowStartNext(a: Lines, row: nat, k: nat)
    requires row < |a|
    ensures RowStart(a, row + 1, k) == RowStart(a, row, k) + |a[row]| + k
  {
  }

  /** Rows after an edit keep their texts and their distances. */
  lemma RowsAfter(a: Lines, i: nat, b: Lines, j: nat, p: Position, k: nat)
    requires i <= |a| && j <= |b| && a[i..] == b[j..] && i <= p.row && ValidPosition(a, p)
    ensures var q := Position(p.row - i + j, p.column);
            && ValidPosition(b, q)
            && Offset(b, q, k) - RowStart(b, j, k) == Offset(a, p, k) - RowStart(a, i, k)
            && RowStart(a, i, k) <= Offset(a, p, k)
  {
    hide RowStart;
    var n := p.row - i;
    assert |a| - i == |a[i..]| == |b[j..]| == |b| - j;
    SuffixParts(a, i, n, a[i..]);
    SuffixParts(b, j, n, b[j..]);
    SuffixDistance(a, i, b, j, n, k);
    RowStartMonotonic(a, i, p.row, k);
  }

  lemma SuffixParts(a: Lines, i: nat, n: nat, x: Lines)
    requires i + n < |a| && x == a[i..]
    ensures a[i..i + n] == x[..n] && a[i + n] == x[n]
  {
  }

  lemma InsertedLength(b: Lines, row: nat, ins: Lines, k: nat)
    requires row + |ins| <= |b| && b[row..row + |ins|] == ins
    ensures RowStart(b, row + |ins|, k) == RowStart(b, row, k) + TermLength(ins, k)
  {
    assert ins == ins[0..0 + |ins|];
    SuffixDistance(b, row, ins, 0, |ins|, k);
  }

  /** Whole rows put in before a row. */
  lemma RowsInserted(a: Lines, row: nat, ins: Lines, b: Lines, p: Position, k: nat)
    requires row < |a| && b == a[..row] + ins + a[row..] && ValidPosition(a, p)
    ensures RowStart(b, row, k) == RowStart(a, row, k)
    ensures RowStart(b, row + |ins|, k) == RowStart(a, row, k) + TermLength(ins, k)
    ensures p.row < row ==> ValidPosition(b, p) && Offset(b, p, k) == Offset(a, p, k) && Offset(a, p, k) + k <= RowStart(a, row, k)
    ensures p.row >= row ==>
              var q := Position(p.row + |ins|, p.column);
              && ValidPosition(b, q)
              && Offset(b, q, k) == Offset(a, p, k) + TermLength(ins, k)
              && Offset(a, p, k) >= RowStart(a, row, k)
  {
    hide RowStart;
    assert b[..row] == a[..row];
    RowStartAgree(a, b, row, k);
    InsertedLength(b, row, ins, k);
    if p.row < row {
      RowsStay(a, b, row, p, k);
    } else {
      assert a[row..] == b[row + |ins|..];
      RowsAfter(a, row, b, row + |ins|, p, k);
    }
  }

  /** One row given another text. */
  lemma RowReplaced(a: Lines, row: nat, line: string, b: Lines, p: Position, k: nat)
    requires row < |a| && b == a[row := line] && ValidPosition(a, p)
    ensures RowStart(b, row, k) == RowStart(a, row, k)
    ensures p.row < row ==> ValidPosition(b, p) && Offset(b, p, k) == Offset(a, p, k) && Offset(a, p, k) + k <= RowStart(a, row, k)
    ensures p.row > row ==>
              && ValidPosition(b, p)
              && Offset(b, p, k) + |a[row]| == Offset(a, p, k) + |line|
              && Offset(a, p, k) >= RowStart(a, row, k) + |a[row]| + k
  {
    hide RowStart;
    assert b[..row] == a[..row];
    RowStartAgree(a, b, row, k);
    RowStartNext(a, row, k);
    RowStartNext(b, row, k);
    if p.row < row {
      RowsStay(a, b, row, p, k);
    } else if p.row > row {
      assert a[row + 1..] == b[row + 1..];
      RowsAfter(a, row + 1, b, row + 1, p, k);
    }
  }

  /** One row broken in two. */
  lemma RowBroken(a: Lines, row: nat, x: string, y: string, b: Lines, p: Position, k: nat)
    requires row < |a| && a[row] == x + y && b == a[..row] + [x, y] + a[row + 1..] && ValidPosition(a, p)
    ensures RowStart(b, row, k) == RowStart(a, row, k) && RowStart(b, row + 1, k) == RowStart(a, row, k) + |x| + k
    ensures p.row < row ==> ValidPosition(b, p) && Offset(b, p, k) == Offset(a, p, k) && Offset(a, p, k) + k <= RowStart(a, row, k)
    ensures p.row > row ==>
              var q := Position(p.row + 1, p.column);
              && ValidPosition(b, q)
              && Offset(b, q, k) == Offset(a, p, k) + k
              && Offset(a, p, k) >= RowStart(a, row, k) + |a[row]| + k
  {
    hide RowStart;
    assert b[..row] == a[..row];
    RowStartAgree(a, b, row, k);
    RowStartNext(a, row, k);
    assert b[row] == x && b[row + 1] == y;
    RowStartNext(b, row, k);
    RowStartNext(b, row + 1, k);
    if p.row < row {
      RowsStay(a, b, row, p, k);
    } else if p.row > row {
      assert a[row + 1..] == b[row + 2..];
      RowsAfter(a, row + 1, b, row + 2, p, k);
    }
  }

  lemma TermPositive(ins: Lines, k: nat)
    requires ins != [] && k > 0
    ensures TermLength(ins, k) > 0
  {
  }

  lemma FollowsInsertLines(lines: Lines, d: Delta, p: Position, k: nat)
    requires Fits(lines, d) && d.InsertLines? && ValidPosition(lines, p) && k > 0
    ensures Follows(lines, d, p, Target(d, p), k)
  {
    var row, ins := d.range.start.row, d.lines;
    hide RowStart, InsertLinesEffect, TermLength;
    ChunksMakeWhole(lines, row, ins);
    var b := lines[..row] + ins + lines[row..];
    assert ApplyDelta(lines, d) == b;
    RowsInserted(lines, row, ins, b, p, k);
    TermPositive(ins, k);
  }

  lemma FollowsInsertInLine(lines: Lines, d: Delta, p: Position, k: nat)
    requires Fits(lines, d) && d.InsertText? && !IsNewLine(d.text) && ValidPosition(lines, p) && k > 0
    ensures Follows(lines, d, p, Target(d, p), k)
  {
    hide InsertEffect, RowStart;
    var s := d.range.start;
    InsertInLineEffect(lines, s, d.text);
    var line := lines[s.row];
    RowReplaced(lines, s.row, line[..s.column] + d.text + line[s.column..], ApplyDelta(lines, d), p, k);
  }

  lemma FollowsInsertNewLine(lines: Lines, d: Delta, p: Position, k: nat)
    requires Fits(lines, d) && d.InsertText? && IsNewLine(d.text) && ValidPosition(lines, p) && k > 0
    ensures Follows(lines, d, p, Target(d, p), k)
  {
    hide InsertEffect, RowStart, Fits;
    FitsShape(lines, d);
    FitsInside(lines, d);
    var s := d.range.start;
    ClipInside(lines, s);
    InsertNewLineEffect(lines, s, d.text);
    var b := ApplyDelta(lines, d);
    var x, y := lines[s.row][..s.column], lines[s.row][s.column..];
    assert b == lines[..s.row] + [x, y] + lines[s.row + 1..];
    assert lines[s.row] == x + y;
    hide ApplyDelta;
    RowBroken(lines, s.row, x, y, b, p, k);
    if p.row == s.row {
      assert b[s.row] == x && b[s.row + 1] == y;
    }
  }

  lemma FitsInside(lines: Lines, d: Delta)
    requires Fits(lines, d) && (d.InsertText? || d.RemoveText?)
    ensures ValidPosition(lines, d.range.start)
    ensures d.RemoveText? && IsNewLine(d.text) ==> d.range.start.row + 1 < |lines|
  {
    NewLineSpansRows(lines, d);
  }

  /** Whole rows taken out. */
  lemma RowsRemoved(a: Lines, row: nat, end: nat, b: Lines, p: Position, k: nat)
    requires row < end < |a| && b == a[..row] + a[end..] && ValidPosition(a, p)
    ensures RowStart(b, row, k) == RowStart(a, row, k) <= RowStart(a, end, k)
    ensures p.row < row ==> ValidPosition(b, p) && Offset(b, p, k) == Offset(a, p, k) && Offset(a, p, k) + k <= RowStart(a, row, k)
    ensures row <= p.row < end ==> RowStart(a, row, k) <= Offset(a, p, k) && Offset(a, p, k) + k <= RowStart(a, end, k)
    ensures p.row >= end ==>
              var q := Position(p.row - (end - row), p.column);
              && ValidPosition(b, q)
              && Offset(b, q, k) + RowStart(a, end, k) == Offset(a, p, k) + RowStart(a, row, k)
              && Offset(a, p, k) >= RowStart(a, end, k)
  {
    hide RowStart;
    assert b[..row] == a[..row] && b[row..] == a[end..];
    RowStartAgree(a, b, row, k);
    RowStartMonotonic(a, row, end, k);
    if p.row < row {
      RowsStay(a, b, row, p, k);
    } else if p.row < end {
      RowStartMonotonic(a, row, p.row, k);
      RowStartGrows(a, p.row, end, k);
    } else {
      RowsAfter(a, end, b, row, p, k);
    }
  }

  lemma FollowsRemoveLines(lines: Lines, d: Delta, p: Position, k: nat)
    requires Fits(lines, d) && d.RemoveLines? && ValidPosition(lines, p) && k > 0
    ensures Follows(lines, d, p, Target(d, p), k)
  {
    hide RowStart;
    var s, e := d.range.start, d.range.end;
    RowsRemoved(lines, s.row, e.row, ApplyDelta(lines, d), p, k);
  }

  lemma FollowsRemoveInLine(lines: Lines, d: Delta, p: Position, k: nat)
    requires Fits(lines, d) && d.RemoveText? && !IsNewLine(d.text) && ValidPosition(lines, p) && k > 0
    ensures Follows(lines, d, p, Target(d, p), k)
  {
    hide RemoveEffect, RowStart;
    NewLineSpansRows(lines, d);
    var s, e := d.range.start, d.range.end;
    RemoveInLineEffect(lines, d.range);
    var line := lines[s.row];
    RowReplaced(lines, s.row, line[..s.column] + line[e.column..], ApplyDelta(lines, d), p, k);
  }

  lemma FollowsRemoveNewLine(lines: Lines, d: Delta, p: Position, k: nat)
    requires Fits(lines, d) && d.RemoveText? && IsNewLine(d.text) && ValidPosition(lines, p) && k > 0
    ensures Follows(lines, d, p, Target(d, p), k)
  {
    hide RemoveEffect, RowStart, Fits, Split, InsertEffect, Left, Right, Splice;
    FitsShape(lines, d);
    FitsInside(lines, d);
    var s := d.range.start;
    var x, y := lines[s.row], lines[s.row + 1];
    RemoveNewLineEffect(lines, s.row);
    var b := lines[..s.row] + [x + y] + lines[s.row + 2..];
    assert ApplyDelta(lines, d) == b;
    RowsJoined(lines, s.row, b, p, k);
  }

  /** Two rows made one. */
  lemma RowsJoined(a: Lines, row: nat, b: Lines, p: Position, k: nat)
    requires row + 1 < |a| && b == a[..row] + [a[row] + a[row + 1]] + a[row + 2..] && ValidPosition(a, p)
    ensures RowStart(b, row, k) == RowStart(a, row, k) && RowStart(a, row + 1, k) == RowStart(a, row, k) + |a[row]| + k
    ensures p.row < row ==> ValidPosition(b, p) && Offset(b, p, k) == Offset(a, p, k) && Offset(a, p, k) + k <= RowStart(a, row, k)
    ensures p.row > row + 1 ==>
              var q := Position(p.row - 1, p.column);
              && ValidPosition(b, q)
              && Offset(b, q, k) + k == Offset(a, p, k)
              && Offset(b, q, k) >= RowStart(b, row, k) + |b[row]| + k
  {
    hide RowStart;
    assert a == b[..row] + [a[row], a[row + 1]] + b[row + 1..];
    RowBroken(b, row, a[row], a[row + 1], a, Position(row, 0), k);
    if p.row < row {
      RowsStay(a, b, row, p, k);
    } else if p.row > row + 1 {
      var q := Position(p.row - 1, p.column);
      assert b[q.row] == a[p.row];
      RowBroken(b, row, a[row], a[row + 1], a, q, k);
    }
  }

  // What a delta does to the text -----------------------------------------------------------------------

  /** The text a delta brings in. */
  function Inserted(d: Delta, nl: string): string {
    match d
    case InsertLines(_, ins) => Terminated(ins, nl)
    case InsertText(_, text) => if IsNewLine(text) then nl else text
    case RemoveLines(_, _, _) => ""
    case RemoveText(_, _) => ""
  }

  /** On the joined text, a delta is exactly the edit that anchors are told to follow. */
  lemma DeltaEditsText(lines: Lines, d: Delta, nl: string)
    requires Fits(lines, d) && nl != ""
    ensures var e := EditOf(lines, d, |nl|);
            && e.offset + e.removed <= |Flat(lines, nl)|
            && e.inserted == |Inserted(d, nl)|
            && Flat(ApplyDelta(lines, d), nl) == Replaced(Flat(lines, nl), e.offset, e.removed, Inserted(d, nl))
  {
    hide Flat, InsertEffect, RemoveEffect, Offset;
    var s, e := d.range.start, d.range.end;
    match d
    case InsertLines(_, ins) =>
      var glue := ins + [""];
      assert glue[..|glue| - 1] == ins;
      ChunksMakeWhole(lines, s.row, ins);
      LinesText(lines, s.row, ins, nl);
    case InsertText(_, text) =>
      TextText(lines, s, text, nl);
    case RemoveLines(_, _, _) =>
      LinesGone(lines, d, nl);
    case RemoveText(_, _) =>
      RemoveIsReplace(lines, d.range, nl);
  }

  lemma LinesText(lines: Lines, row: nat, ins: Lines, nl: string)
    requires row < |lines| && ins != []
    ensures var o := Offset(lines, Position(row, 0), |nl|);
            && o <= |Flat(lines, nl)|
            && TermLength(ins, |nl|) == |Terminated(ins, nl)|
            && Flat(Splice(lines, row, 0, ins), nl) == Replaced(Flat(lines, nl), o, 0, Terminated(ins, nl))
  {
    hide Flat, Terminated, Offset;
    var p, glue := Position(row, 0), ins + [""];
    GluedLines(lines, row, ins, nl);
    SpliceIsReplace(lines, p, p, glue, Splice(lines, row, 0, ins), nl);
    RowStartIsPrefix(ins, |ins|, nl);
    assert ins[..|ins|] == ins;
  }

  lemma GluedLines(lines: Lines, row: nat, ins: Lines, nl: string)
    requires row < |lines| && ins != []
    ensures Flat(ins + [""], nl) == Terminated(ins, nl)
    ensures Splice(lines, row, 0, ins)
            == lines[..row] + Glued(lines[row][..0], ins + [""], lines[row][0..]) + lines[row + 1..]
  {
    hide Terminated;
    var glue := ins + [""];
    assert glue[..|glue| - 1] == ins;
    assert Flat(glue, nl) == Terminated(ins, nl) + "" == Terminated(ins, nl);
    assert lines[row][..0] == "" && lines[row][0..] == lines[row];
    assert "" + ins[0] == ins[0] && "" + lines[row] == lines[row];
    assert Glued("", glue, lines[row]) == ins + [lines[row]];
  }

  lemma TextText(lines: Lines, p: Position, text: string, nl: string)
    requires ValidPosition(lines, p) && (IsNewLine(text) || (NewLineFree(text) && text != ""))
    ensures var o, ins := Offset(lines, p, |nl|), if IsNewLine(text) then nl else text;
            && o <= |Flat(lines, nl)|
            && Flat(InsertEffect(lines, p, text), nl) == Replaced(Flat(lines, nl), o, 0, ins)
  {
    if IsNewLine(text) {
      SplitNewLine(text);
      assert text[|text| - 1..] != "";
      NewLineAlone(text, nl);
    } else {
      SplitNewLineFree(text);
      SplitJoins(text, nl);
      FlatOne(text, nl);
    }
    InsertIsReplace(lines, p, text, nl);
  }

  lemma NewLineAlone(text: string, nl: string)
    requires IsNewLine(text)
    ensures WithNewLines(text, nl) == nl
  {
    assert WithNewLines("", nl) == "";
    assert text == "\r\n" ==> text[2..] == "";
    assert text != "\r\n" ==> text[1..] == "";
    assert nl + "" == nl;
  }

  /** Removing whole rows is removing the range from the start of one to the start of another. */
  lemma RowsGone(lines: Lines, d: Delta)
    requires Fits(lines, d) && d.RemoveLines?
    ensures ApplyDelta(lines, d) == RemoveEffect(lines, d.range)
  {
    hide RemoveEffect;
    var s, e := d.range.start, d.range.end;
    AcrossRows(lines, s, e);
    assert Left(lines[s.row], 0) + Right(lines[e.row], 0) == lines[e.row];
  }

  lemma LinesGone(lines: Lines, d: Delta, nl: string)
    requires Fits(lines, d) && d.RemoveLines?
    ensures var o, o' := Offset(lines, d.range.start, |nl|), Offset(lines, d.range.end, |nl|);
            && o <= o' <= |Flat(lines, nl)|
            && Flat(ApplyDelta(lines, d), nl) == Replaced(Flat(lines, nl), o, o' - o, "")
  {
    hide Flat, Offset, RemoveEffect;
    RowsGone(lines, d);
    RemoveIsReplace(lines, d.range, nl);
  }
}
