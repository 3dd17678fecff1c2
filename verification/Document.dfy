/** The editor's document, its replica in the worker, and whole runs of edits. */
module Documents {
  import opened DocText

  datatype NewLineMode = Windows | Unix | Auto

  /** The first line break of a text, "\n" if there is none. */
  function FirstNewLine(text: string): (nl: string)
    ensures IsNewLine(nl)
  {
    if text == "" then "\n"
    else if |text| > 1 && text[0] == '\r' && text[1] == '\n' then "\r\n"
    else if text[0] == '\r' || text[0] == '\n' then text[..1]
    else FirstNewLine(text[1..])
  }

  /** The text up to its first line break, of whichever kind, and that break; "\n" if it has none. */
  ghost predicate BreaksWith(text: string, nl: string) {
    ('\r' !in text && '\n' !in text && nl == "\n")
    || exists before, after :: BreaksInto(text, before, nl, after)
  }

  predicate BreaksInto(text: string, before: string, nl: string, after: string) {
    && text == before + nl + after && '\r' !in before && '\n' !in before
    && (nl == "\r\n" || nl == "\n" || (nl == "\r" && !("\n" <= after)))
  }

  /** What is detected is the first line break, and nothing else is. */
  lemma {:induction false} FirstNewLineIff(text: string, nl: string)
    ensures FirstNewLine(text) == nl <==> BreaksWith(text, nl)
    decreases |text|
  {
    if text == "" {
      NoBreak(nl);
    } else if text[0] == '\r' || text[0] == '\n' {
      BreakFirst(text, nl);
    } else {
      FirstNewLineIff(text[1..], nl);
      BreakLater(text, nl);
    }
  }

  lemma NoBreak(nl: string)
    ensures BreaksWith("", nl) <==> nl == "\n"
  {
  }

  lemma BreakFirst(text: string, nl: string)
    requires text != "" && (text[0] == '\r' || text[0] == '\n')
    ensures FirstNewLine(text) == nl <==> BreaksWith(text, nl)
  {
    var found := FirstNewLine(text);
    assert text == "" + found + text[|found|..];
    assert BreaksInto(text, "", found, text[|found|..]);
    if before, after :| BreaksInto(text, before, nl, after) {
      BreaksAtOnce(text, before, nl, after);
    }
  }

  lemma BreaksAtOnce(text: string, before: string, nl: string, after: string)
    requires BreaksInto(text, before, nl, after) && (text[0] == '\r' || text[0] == '\n')
    ensures before == "" && nl == FirstNewLine(text)
  {
    assert text == before + (nl + after);
    HeadOfBoth(text, before, nl + after);
  }

  lemma HeadOfBoth(text: string, before: string, rest: string)
    requires text == before + rest
    ensures before != "" ==> text[0] in before
  {
  }

  lemma BreakLater(text: string, nl: string)
    requires text != "" && text[0] != '\r' && text[0] != '\n'
    ensures BreaksWith(text, nl) <==> BreaksWith(text[1..], nl)
  {
    var c, more := [text[0]], text[1..];
    assert text == c + more;
    if before, after :| BreaksInto(more, before, nl, after) {
      assert c + (before + nl + after) == (c + before) + nl + after;
      assert BreaksInto(text, c + before, nl, after);
    }
    if before, after :| BreaksInto(text, before, nl, after) {
      assert before != "";
      assert more == before[1..] + nl + after;
      assert BreaksInto(more, before[1..], nl, after);
    }
  }

  predicate AllFree(lines: Lines) {
    forall line | line in lines :: NewLineFree(line)
  }

  class Document {
    var lines: Lines
    var autoNewLine: string
    var newLineMode: NewLineMode
    /** The deltas handed to the change listeners so far. */
    var log: seq<Delta>

    ghost predicate Valid()
      reads this
    {
      IsNewLine(autoNewLine)
    }

    function NewLineCharacter(): (nl: string)
      requires Valid()
      reads this
      ensures IsNewLine(nl)
    {
      match newLineMode
      case Windows => "\r\n"
      case Unix => "\n"
      case Auto => autoNewLine
    }

    constructor (text: string)
      ensures Valid()
      ensures lines == if text == "" then [""] else InsertEffect([], Position(0, 0), text)
      ensures newLineMode == Auto && BreaksWith(text, autoNewLine)
    {
      lines, autoNewLine, newLineMode, log := [], "\n", Auto, [];
      new;
      NoBreak("\n");
      hide BreaksWith, Emits, FitsAll, InsertEffect, InsertEnd;
      if text == "" {
        lines := [""];
      } else {
        var end, emitted := Insert(Position(0, 0), text);
      }
    }

    /** A document made from an array of lines. */
    constructor FromLines(from: Lines)
      ensures Valid()
      ensures lines == if from == [] then [""] else from
      ensures newLineMode == Auto && autoNewLine == "\n"
    {
      lines, autoNewLine, newLineMode, log := [], "\n", Auto, [];
      new;
      hide InsertLinesEffect, FitsAll, Emits, After, AllFree, FreeDelta;
      if from == [] {
        lines := [""];
      } else {
        ChunksMakeWhole([], 0, from);
        assert Splice([], 0, 0, from) == from;
        var end, emitted := InsertLines(0, from);
      }
    }

    method Emit(d: Delta)
      requires Valid()
      modifies `log
      ensures Valid() && log == old(log) + [d]
    {
      log := log + [d];
    }

    /**
     Returns where the inserted text ends; `emitted` is what the listeners were told. A document of at most one
     line takes over the text's first line break.
     */
    method Insert(position: Position, text: string) returns (end: Position, ghost emitted: seq<Delta>)
      requires Valid()
      modifies `lines, `log, `autoNewLine
      ensures Valid() && log == old(log) + emitted
      ensures lines == InsertEffect(old(lines), position, text)
      ensures end == InsertEnd(old(lines), position, text)
      ensures if text != "" && |old(lines)| <= 1 then BreaksWith(text, autoNewLine) else autoNewLine == old(autoNewLine)
      ensures Emits(old(lines), emitted, lines)
      ensures ValidPosition(old(lines), Clip(old(lines), position)) ==> FitsAll(old(lines), emitted)
      ensures AllFreeDeltas(emitted)
    {
      hide Reverted, AllAt, After, FitsAll, Emits, InsertEffect, InsertEnd, Split, Splice, LineAt, Left, Right, BreaksWith, FirstNewLine;
      FirstNewLineIff(text, FirstNewLine(text));
      EmitsNone(lines);
      if text == "" {
        InsertNothing(lines, position);
        return position, [];
      }
      var p := Clip(lines, position);
      if |lines| <= 1 {
        autoNewLine := FirstNewLine(text);
      }
      var parts := Split(text);
      ghost var l0 := lines;
      end, emitted := InsertInLine(p, parts[0]);
      if |parts| == 1 {
        InsertOnePart(l0, position, text);
      } else {
        ghost var more: seq<Delta>;
        end, more := InsertRest(l0, position, text, p, end, parts);
        EmitsThen(l0, emitted, InLine(l0, p, parts[0]), more, lines);
        emitted := emitted + more;
      }
    }

    /** What is inserted after the first part of a text of several lines: a line break, whole lines, the last part. */
    method InsertRest(ghost l0: Lines, ghost position: Position, ghost text: string, p: Position, middle: Position, parts: Lines)
      returns (end: Position, ghost emitted: seq<Delta>)
      requires Valid() && text != "" && parts == Split(text) && |parts| > 1 && p == Clip(l0, position)
      requires lines == InLine(l0, p, parts[0]) && middle == Position(p.row, p.column + |parts[0]|)
      modifies `lines, `log
      ensures Valid() && log == old(log) + emitted
      ensures lines == InsertEffect(l0, position, text) && end == InsertEnd(l0, position, text)
      ensures Emits(old(lines), emitted, lines)
      ensures ValidPosition(l0, p) ==> FitsAll(old(lines), emitted)
      ensures AllFreeDeltas(emitted)
    {
      hide Reverted, AllAt, CutComesBack, After, FitsAll, Emits, InsertEffect, InsertEnd, Split, Splice, LineAt, Left, Right,
        NewLineFree, FreeDelta, InsertLinesEffect;
      ghost var more: seq<Delta>;
      ghost var l1 := lines;
      assert p == Clip(l0, p);
      hide Broken, InLine, Clip;
      BrokenAfterFirst(l0, p, parts[0], l1, Broken(l1, middle));
      end, emitted := InsertNewLine(middle);
      ghost var l2 := lines;
      RowsOfBroken(l1, middle, l2);
      var block, last := parts[1..|parts| - 1], parts[|parts| - 1];
      end, more := InsertBlock(end.row, block, last);
      EmitsThen(l1, emitted, l2, more, lines);
      emitted := emitted + more;
      InsertManyParts(l0, position, text, l1, l2, Splice(l2, p.row + 1, 0, block), lines);
    }

    /** The whole lines, and the last part. */
    method InsertBlock(row: nat, block: Lines, last: string) returns (end: Position, ghost emitted: seq<Delta>)
      requires Valid() && row < |lines| && AllFree(block) && NewLineFree(last)
      modifies `lines, `log
      ensures Valid() && log == old(log) + emitted
      ensures lines == InLine(Splice(old(lines), row, 0, block), Position(row + LastChunk(|block|), 0), last)
      ensures end == Position(row + LastChunk(|block|), |last|)
      ensures Emits(old(lines), emitted, lines) && FitsAll(old(lines), emitted) && AllFreeDeltas(emitted)
    {
      hide Reverted, AllAt, After, FitsAll, Emits, Splice, LineAt, Left, Right, NewLineFree, FreeDelta, InsertLinesEffect, InLine;
      ghost var l0 := lines;
      ChunksMakeWhole(l0, row, block);
      end, emitted := InsertLines(row, block);
      ghost var l1 := lines;
      RowsOfSplice(l0, row, block, end);
      ghost var more: seq<Delta>;
      end, more := InsertInLine(end, last);
      EmitsThen(l0, emitted, l1, more, lines);
      emitted := emitted + more;
    }

    method InsertLines(row: nat, ins: Lines) returns (end: Position, ghost emitted: seq<Delta>)
      requires Valid()
      modifies `lines, `log
      ensures Valid() && log == old(log) + emitted
      ensures lines == InsertLinesEffect(old(lines), row, ins)
      ensures end == Position(row + LastChunk(|ins|), 0)
      ensures Emits(old(lines), emitted, lines)
      ensures row < |old(lines)| ==> FitsAll(old(lines), emitted)
      ensures AllFree(ins) ==> AllFreeDeltas(emitted)
      ensures AllAt(emitted, row) && (Reverted(lines, emitted) == old(lines) <==> row <= |old(lines)| || ins == [])
      decreases |ins|
    {
      hide Reverted, RevertDelta, After, FitsAll, Emits, ApplyDelta, Fits;
      EmitsNone(lines);
      RevertedNone(lines);
      if |ins| == 0 {
        assert Splice(lines, row, 0, ins) == lines;
        return Position(row, 0), [];
      }
      emitted := [];
      var head := ins;
      if |ins| > CHUNK {
        end, emitted := InsertLines(row, ins[CHUNK..]);
        head := ins[..CHUNK];
        LastChunkOfTail(|ins|);
        StillInside(old(lines), row, ins[CHUNK..]);
      }
      ghost var before := lines;
      lines := Splice(lines, row, 0, head);
      var range := Range(Position(row, 0), Position(row + |head|, 0));
      var delta := Delta.InsertLines(range, head);
      InsertLinesDelta(before, row, head);
      Emit(delta);
      EmitsOne(before, delta);
      EmitsThen(old(lines), emitted, before, [delta], lines);
      LastUndone(old(lines), row, ins, before, head, emitted, delta);
      emitted := emitted + [delta];
      if |ins| <= CHUNK {
        end := range.end;
      }
    }

    method InsertNewLine(position: Position) returns (end: Position, ghost emitted: seq<Delta>)
      requires Valid()
      modifies `lines, `log
      ensures Valid() && log == old(log) + emitted
      ensures var p := Clip(old(lines), position);
              lines == Broken(old(lines), p) && end == Position(p.row + 1, 0)
      ensures Emits(old(lines), emitted, lines)
      ensures ValidPosition(old(lines), Clip(old(lines), position)) ==> FitsAll(old(lines), emitted)
      ensures AllFreeDeltas(emitted)
      ensures Reverted(lines, emitted) == old(lines) <==> old(lines) != []
    {
      hide Reverted, RevertDelta, After, FitsAll, Emits, ApplyDelta, Fits, LineAt, Left, Right;
      var p := Clip(lines, position);
      var line := LineAt(lines, p.row);
      lines := Splice(lines, p.row, 1, [Left(line, p.column)]);
      lines := Splice(lines, p.row + 1, 0, [Right(line, p.column)]);
      assert lines == Broken(old(lines), p);
      end := Position(p.row + 1, 0);
      var delta := InsertText(Range(p, end), NewLineCharacter());
      InsertNewLineDelta(old(lines), p, delta.text);
      Emit(delta);
      RevertedOne(lines, delta);
      InsertNewLineUndoneIff(old(lines), position, delta.text);
      EmitsOne(old(lines), delta);
      emitted := [delta];
    }

    /** A replica follows exactly when the row is there and the text has no line break. */
    method InsertInLine(position: Position, text: string) returns (end: Position, ghost emitted: seq<Delta>)
      requires Valid() && (text == "" || position.row <= |lines|)
      modifies `lines, `log
      ensures Valid() && log == old(log) + emitted
      ensures lines == InLine(old(lines), position, text)
      ensures end == Position(position.row, position.column + |text|)
      ensures Emits(old(lines), emitted, lines) <==> text == "" || (NewLineFree(text) && InDocument(old(lines), position))
      ensures NewLineFree(text) && ValidPosition(old(lines), position) ==> FitsAll(old(lines), emitted)
      ensures AllFreeDeltas(emitted)
      ensures Reverted(lines, emitted) == old(lines) <==> text == "" || ValidPosition(old(lines), position)
    {
      hide Reverted, RevertDelta, After, FitsAll, Emits, ApplyDelta, Fits, LineAt, Left, Right, Splice, NewLineFree;
      EmitsNone(lines);
      RevertedNone(lines);
      if |text| == 0 {
        return position, [];
      }
      var line := LineAt(lines, position.row);
      lines := Splice(lines, position.row, 1, [Left(line, position.column) + text + Right(line, position.column)]);
      end := Position(position.row, position.column + |text|);
      var delta := InsertText(Range(position, end), text);
      InsertTextDelta(old(lines), position, text);
      Emit(delta);
      RevertedOne(lines, delta);
      InsertInLineUndoneIff(old(lines), position, text);
      EmitsOneIff(old(lines), delta, lines);
      emitted := [delta];
    }

    /** Returns the start of the range, clipped to the document. */
    method Remove(range: Range) returns (start: Position, ghost emitted: seq<Delta>)
      requires Valid()
      modifies `lines, `log
      ensures Valid() && log == old(log) + emitted
      ensures lines == RemoveEffect(old(lines), range)
      ensures start == Clip(old(lines), range.start)
      ensures Emits(old(lines), emitted, lines)
      ensures ValidRange(old(lines), range) && AllFree(old(lines)) ==> FitsAll(old(lines), emitted)
      ensures AllFree(old(lines)) ==> AllFreeDeltas(emitted)
    {
      hide Reverted, CutComesBack, After, FitsAll, Emits, RemoveEffect, Cut, Joined, Splice, AllFree, NewLineFree;
      ghost var l0 := lines;
      EmitsNone(lines);
      start := Clip(lines, range.start);
      var end := Clip(lines, range.end);
      ClippedRemove(l0, range);
      if start == end {
        return start, [];
      }
      var firstRow, lastRow := start.row, end.row;
      FreeLine(l0, firstRow);
      FreeLine(l0, lastRow);
      if firstRow < lastRow {
        emitted := RemoveRows(start, end);
      } else if firstRow > lastRow {
        emitted := RemoveCrossed(start, end);
      } else {
        emitted := RemoveInLine(firstRow, start.column, end.column);
      }
    }

    /** The steps of a removal over several rows. */
    method RemoveRows(start: Position, end: Position) returns (ghost emitted: seq<Delta>)
      requires Valid() && start.row < end.row < |lines|
      modifies `lines, `log
      ensures Valid() && log == old(log) + emitted
      ensures lines == RemoveEffect(old(lines), Range(start, end))
      ensures Emits(old(lines), emitted, lines)
      ensures start.column <= |old(lines)[start.row]| && end.column <= |old(lines)[end.row]| && AllFree(old(lines)) ==>
                FitsAll(old(lines), emitted)
      ensures AllFree(old(lines)) ==> AllFreeDeltas(emitted)
    {
      hide Reverted, After, FitsAll, Emits, RemoveEffect, Cut, Joined, Splice, AllFree, NewLineFree, FreeDelta, Left, Right;
      var firstFullRow := if start.column == 0 then start.row else start.row + 1;
      ghost var l0 := lines;
      FreeLine(l0, start.row);
      emitted := RemoveFullRows(firstFullRow, end);
      ghost var l1, l2 := Cut(l0, end.row, 0, end.column), lines;
      if firstFullRow != start.row {
        AfterCut(l0, end.row, end.column, l1);
        AfterRows(l1, start.row, end.row, l2);
        ghost var l3 := Cut(l2, start.row, start.column, |LineAt(l2, start.row)|);
        ghost var more := CutAndJoin(start.row, start.column);
        EmitsThen(l0, emitted, l2, more, lines);
        emitted := emitted + more;
        RemoveFromMidLine(l0, start, end, l1, l2, l3, lines);
      } else {
        RemoveFromLineStart(l0, start, end, l1, l2);
      }
    }

    /** Cuts the row of the end, and removes the rows from `first` to the one before it. */
    method RemoveFullRows(first: nat, end: Position) returns (ghost emitted: seq<Delta>)
      requires Valid() && first <= end.row < |lines|
      modifies `lines, `log
      ensures Valid() && log == old(log) + emitted
      ensures lines == Splice(Cut(old(lines), end.row, 0, end.column), first, end.row - first, [])
      ensures Emits(old(lines), emitted, lines)
      ensures end.column <= |old(lines)[end.row]| && AllFree(old(lines)) ==> FitsAll(old(lines), emitted)
      ensures AllFree(old(lines)) ==> AllFreeDeltas(emitted)
    {
      hide Reverted, CutComesBack, After, FitsAll, Emits, Cut, Splice, AllFree, NewLineFree, FreeDelta, Left, Right;
      var lastFullRow := end.row - 1;
      ghost var l0 := lines;
      FreeLine(l0, end.row);
      EmitsNone(lines);
      emitted := [];
      if end.column > 0 {
        emitted := RemoveInLine(end.row, 0, end.column);
      }
      ghost var l1 := lines;
      AfterCut(l0, end.row, end.column, l1);
      if AllFree(l0) {
        FreeCut(l0, end.row, 0, end.column);
      }
      if lastFullRow >= first {
        ghost var more := RemoveLines(first, lastFullRow);
        EmitsThen(l0, emitted, l1, more, lines);
        emitted := emitted + more;
      }
      SpliceNone(l1, first);
    }

    /** The same steps when the range ends on an earlier row than it starts. */
    method RemoveCrossed(start: Position, end: Position) returns (ghost emitted: seq<Delta>)
      requires Valid() && end.row < start.row < |lines|
      modifies `lines, `log
      ensures Valid() && log == old(log) + emitted
      ensures lines == Crossed(old(lines), start, end)
      ensures Emits(old(lines), emitted, lines)
      ensures AllFreeDeltas(emitted)
    {
      hide Reverted, CutComesBack, After, FitsAll, Emits, Splice, Left, Right, NewLineFree, FreeDelta;
      ghost var l0 := lines;
      EmitsNone(lines);
      emitted := [];
      ghost var more: seq<Delta>;
      if end.column > 0 {
        more := RemoveInLine(end.row, 0, end.column);
        emitted := more;
      }
      ghost var l1 := lines;
      AfterCut(l0, end.row, end.column, l1);
      if start.column > 0 {
        more := CutAndJoin(start.row, start.column);
        EmitsThen(l0, emitted, l1, more, lines);
        emitted := emitted + more;
      }
    }

    /** Cuts a row from a column on and joins it with the next. */
    method CutAndJoin(row: nat, column: nat) returns (ghost emitted: seq<Delta>)
      requires Valid() && row < |lines|
      modifies `lines, `log
      ensures Valid() && log == old(log) + emitted
      ensures lines == Joined(Cut(old(lines), row, column, |LineAt(old(lines), row)|), row)
      ensures Emits(old(lines), emitted, lines)
      ensures column <= |old(lines)[row]| && NewLineFree(old(lines)[row]) && row + 1 < |old(lines)| ==>
                FitsAll(old(lines), emitted)
      ensures AllFreeDeltas(emitted)
    {
      hide Reverted, CutComesBack, After, FitsAll, Emits, Cut, Joined, NewLineFree, FreeDelta;
      ghost var l0 := lines;
      var length := |LineAt(lines, row)|;
      CutRows(l0, row, column, length);
      emitted := RemoveInLine(row, column, length);
      ghost var l1 := lines;
      ghost var more := RemoveNewLine(row);
      EmitsThen(l0, emitted, l1, more, lines);
      emitted := emitted + more;
    }

    /** A replica follows exactly when the row is there; undoing puts back what was cut, if that was one piece. */
    method RemoveInLine(row: nat, startColumn: nat, endColumn: nat) returns (ghost emitted: seq<Delta>)
      requires Valid()
      modifies `lines, `log
      ensures Valid() && log == old(log) + emitted
      ensures lines == Cut(old(lines), row, startColumn, endColumn)
      ensures Emits(old(lines), emitted, lines) <==> row < |old(lines)| || startColumn == endColumn
      ensures row < |old(lines)| && startColumn <= endColumn <= |old(lines)[row]| && NewLineFree(old(lines)[row]) ==>
                FitsAll(old(lines), emitted)
      ensures AllFreeDeltas(emitted)
      ensures Reverted(lines, emitted) == old(lines) <==>
                startColumn == endColumn || CutComesBack(old(lines), row, startColumn, endColumn)
    {
      hide Reverted, RevertDelta, CutComesBack, After, FitsAll, Emits, ApplyDelta, Fits, Left, Right, Splice, Substring, NewLineFree;
      EmitsNone(lines);
      RevertedNone(lines);
      if startColumn == endColumn {
        return [];
      }
      var range := Range(Position(row, startColumn), Position(row, endColumn));
      var line := LineAt(lines, row);
      var removed := Substring(line, startColumn, endColumn);
      var newLine := Left(line, startColumn) + Right(line, endColumn);
      lines := Splice(lines, row, 1, [newLine]);
      var delta := RemoveText(range, removed);
      CutDelta(old(lines), row, startColumn, endColumn);
      Emit(delta);
      RevertedOne(lines, delta);
      CutUndoneIff(old(lines), row, startColumn, endColumn);
      EmitsOneIff(old(lines), delta, lines);
      emitted := [delta];
    }

    method RemoveLines(firstRow: nat, lastRow: int) returns (ghost emitted: seq<Delta>)
      requires Valid() && lastRow >= -1
      modifies `lines, `log
      ensures Valid() && log == old(log) + emitted
      ensures lines == Splice(old(lines), firstRow, Span(firstRow, lastRow + 1), [])
      ensures Emits(old(lines), emitted, lines)
      ensures firstRow <= lastRow < |old(lines)| - 1 ==> FitsAll(old(lines), emitted)
      ensures AllFree(old(lines)) ==> AllFreeDeltas(emitted)
      ensures Reverted(lines, emitted) == old(lines)
    {
      hide Reverted, RevertDelta, After, FitsAll, Emits, ApplyDelta, Fits;
      var range := Range(Position(firstRow, 0), Position(lastRow + 1, 0));
      var removed := Taken(lines, firstRow, lastRow + 1);
      lines := Splice(lines, firstRow, Span(firstRow, lastRow + 1), []);
      var delta := Delta.RemoveLines(range, NewLineCharacter(), removed);
      RemoveLinesDelta(old(lines), firstRow, lastRow + 1, delta.nl);
      Emit(delta);
      RevertedOne(lines, delta);
      RemoveLinesUndone(old(lines), firstRow, lastRow + 1, delta.nl);
      EmitsOne(old(lines), delta);
      emitted := [delta];
    }

    /** A replica follows exactly when the row is there. */
    method RemoveNewLine(row: nat) returns (ghost emitted: seq<Delta>)
      requires Valid()
      modifies `lines, `log
      ensures Valid() && log == old(log) + emitted
      ensures lines == Joined(old(lines), row)
      ensures Emits(old(lines), emitted, lines) <==> row < |old(lines)|
      ensures row + 1 < |old(lines)| ==> FitsAll(old(lines), emitted)
      ensures AllFreeDeltas(emitted)
      ensures Reverted(lines, emitted) == old(lines) <==> row + 1 < |old(lines)|
    {
      hide Reverted, RevertDelta, After, FitsAll, Emits, ApplyDelta, Fits, Splice;
      var firstLine, secondLine := LineAt(lines, row), LineAt(lines, row + 1);
      var range := Range(Position(row, |firstLine|), Position(row + 1, 0));
      lines := Splice(lines, row, 2, [firstLine + secondLine]);
      var delta := RemoveText(range, NewLineCharacter());
      JoinDelta(old(lines), row, delta.text);
      Emit(delta);
      RevertedOne(lines, delta);
      JoinUndoneIff(old(lines), row, delta.text);
      EmitsOneIff(old(lines), delta, lines);
      emitted := [delta];
    }

    method SetValue(text: string) returns (ghost emitted: seq<Delta>)
      requires Valid()
      modifies `lines, `log, `autoNewLine
      ensures Valid() && log == old(log) + emitted
      ensures lines == InsertEffect(if old(lines) == [] then [] else [""], Position(0, 0), text)
      ensures if text != "" then BreaksWith(text, autoNewLine) else autoNewLine == old(autoNewLine)
      ensures Emits(old(lines), emitted, lines)
      ensures old(lines) != [] && AllFree(old(lines)) ==> FitsAll(old(lines), emitted)
      ensures AllFree(old(lines)) ==> AllFreeDeltas(emitted)
    {
      hide After, FitsAll, Emits, RemoveEffect, InsertEffect, BreaksWith;
      var len := |lines|;
      ghost var l0 := lines;
      var lastColumn := if len > 0 then |LineAt(lines, len - 1)| else 0;
      RemoveEverything(l0);
      var start, end: Position;
      start, emitted := Remove(Range(Position(0, 0), Position(len, lastColumn)));
      ghost var more: seq<Delta>;
      ghost var l1 := lines;
      end, more := Insert(Position(0, 0), text);
      EmitsThen(l0, emitted, l1, more, lines);
      emitted := emitted + more;
    }

    method ApplyOne(delta: Delta) returns (ghost emitted: seq<Delta>)
      requires Valid()
      modifies `lines, `log, `autoNewLine
      ensures Valid() && log == old(log) + emitted
      ensures lines == ApplyDelta(old(lines), delta)
      ensures Emits(old(lines), emitted, lines)
      ensures Fits(old(lines), delta) && AllFree(old(lines)) ==> FitsAll(old(lines), emitted)
      ensures AllFree(old(lines)) && FreeDelta(delta) ==> AllFreeDeltas(emitted)
    {
      hide Emits, FitsAll, AllFree, RemoveEffect, InsertEffect, InsertLinesEffect, InsertEnd;
      var range, end := delta.range, delta.range.end;
      if delta.InsertLines? {
        end, emitted := InsertLines(range.start.row, delta.lines);
      } else if delta.InsertText? {
        end, emitted := Insert(range.start, delta.text);
      } else if delta.RemoveLines? {
        emitted := RemoveLines(range.start.row, range.end.row - 1);
      } else {
        end, emitted := Remove(range);
      }
    }

    method ApplyDeltas(deltas: seq<Delta>) returns (ghost emitted: seq<Delta>)
      requires Valid()
      modifies `lines, `log, `autoNewLine
      ensures Valid() && log == old(log) + emitted
      ensures lines == After(old(lines), deltas)
      ensures Emits(old(lines), emitted, lines)
      ensures FitsAll(old(lines), deltas) && AllFree(old(lines)) && AllFreeDeltas(deltas) ==> FitsAll(old(lines), emitted)
      ensures AllFree(old(lines)) && AllFreeDeltas(deltas) ==> AllFreeDeltas(emitted)
    {
      hide FitsAll, Emits, ApplyDelta, Fits, AllFree, FreeDelta;
      ghost var l0 := lines;
      ghost var clean := AllFree(l0) && AllFreeDeltas(deltas);
      ghost var fitting := FitsAll(l0, deltas) && clean;
      emitted := [];
      EmitsNone(lines);
      var i := 0;
      while i < |deltas|
        invariant 0 <= i <= |deltas| && Valid() && log == old(log) + emitted
        invariant lines == After(l0, deltas[..i])
        invariant Emits(l0, emitted, lines)
        invariant fitting ==> FitsAll(l0, emitted)
        invariant clean ==> AllFree(lines) && AllFreeDeltas(emitted)
      {
        AfterPrefix(l0, deltas, i);
        ghost var before := lines;
        if fitting {
          PrefixFits(l0, deltas, i);
        }
        if clean {
          FreeApplied(before, deltas[i]);
        }
        ghost var more := ApplyOne(deltas[i]);
        EmitsThen(l0, emitted, before, more, lines);
        emitted := emitted + more;
        i := i + 1;
      }
      assert deltas[..i] == deltas;
    }

    method RevertOne(delta: Delta) returns (ghost emitted: seq<Delta>)
      requires Valid()
      modifies `lines, `log, `autoNewLine
      ensures Valid() && log == old(log) + emitted
      ensures lines == RevertDelta(old(lines), delta)
      ensures Emits(old(lines), emitted, lines)
      ensures Reversible(old(lines), delta) && AllFree(old(lines)) ==> FitsAll(old(lines), emitted)
      ensures AllFree(old(lines)) && FreeDelta(delta) ==> AllFreeDeltas(emitted)
    {
      hide Emits, FitsAll, AllFree, RemoveEffect, InsertEffect, InsertLinesEffect, InsertEnd, Reversible;
      if Reversible(lines, delta) {
        ReversedInBounds(lines, delta);
      }
      var range, end := delta.range, delta.range.end;
      if delta.InsertLines? {
        emitted := RemoveLines(range.start.row, range.end.row - 1);
      } else if delta.InsertText? {
        end, emitted := Remove(range);
      } else if delta.RemoveLines? {
        end, emitted := InsertLines(range.start.row, delta.lines);
      } else {
        end, emitted := Insert(range.start, delta.text);
      }
    }

    /** Undoes a log; of a log of edits that led from some lines to the present ones, it restores those. */
    method RevertDeltas(deltas: seq<Delta>) returns (ghost emitted: seq<Delta>)
      requires Valid()
      modifies `lines, `log, `autoNewLine
      ensures Valid() && log == old(log) + emitted
      ensures lines == Reverted(old(lines), deltas)
      ensures forall l0 | FitsAll(l0, deltas) && After(l0, deltas) == old(lines) :: lines == l0
      ensures Emits(old(lines), emitted, lines)
      ensures ReversibleAll(old(lines), deltas) && AllFree(old(lines)) && AllFreeDeltas(deltas) ==>
                FitsAll(old(lines), emitted)
      ensures AllFree(old(lines)) && AllFreeDeltas(deltas) ==> AllFreeDeltas(emitted)
    {
      hide ApplyDelta, RevertDelta, Fits, FitsAll, Emits, Reversible, AllFree, FreeDelta;
      ghost var l0 := lines;
      ghost var clean := AllFree(l0) && AllFreeDeltas(deltas);
      ghost var fitting := ReversibleAll(l0, deltas) && clean;
      emitted := [];
      EmitsNone(lines);
      var i := |deltas| - 1;
      assert deltas[..i + 1] == deltas;
      while i >= 0
        invariant -1 <= i < |deltas| && Valid() && log == old(log) + emitted
        invariant Reverted(lines, deltas[..i + 1]) == Reverted(l0, deltas)
        invariant Emits(l0, emitted, lines)
        invariant fitting ==> FitsAll(l0, emitted) && ReversibleAll(lines, deltas[..i + 1])
        invariant clean ==> AllFree(lines) && AllFreeDeltas(emitted)
      {
        assert deltas[..i + 1][..i] == deltas[..i];
        ghost var before := lines;
        if clean {
          FreeReverted(before, deltas[i]);
        }
        ghost var more := RevertOne(deltas[i]);
        EmitsThen(l0, emitted, before, more, lines);
        emitted := emitted + more;
        i := i - 1;
      }
      forall l | FitsAll(l, deltas) && After(l, deltas) == l0 ensures lines == l {
        RevertedUndoes(l, deltas);
      }
    }
  }

  /** The line break that a document writes is that of its mode; in the automatic mode, the one it has detected. */
  lemma NewLineOfMode(doc: Document)
    requires doc.Valid()
    ensures doc.newLineMode == Windows ==> doc.NewLineCharacter() == "\r\n"
    ensures doc.newLineMode == Unix ==> doc.NewLineCharacter() == "\n"
    ensures doc.newLineMode == Auto ==> doc.NewLineCharacter() == doc.autoNewLine
  {
  }

  /** The lines a delta carries have no line breaks. */
  predicate FreeDelta(d: Delta) {
    d.InsertLines? || d.RemoveLines? ==> AllFree(d.lines)
  }

  predicate AllFreeDeltas(log: seq<Delta>) {
    forall d | d in log :: FreeDelta(d)
  }

  /** The delta describes an edit that led to these lines. */
  ghost predicate Reversible(lines: Lines, d: Delta) {
    exists l0 :: Fits(l0, d) && ApplyDelta(l0, d) == lines
  }

  ghost predicate ReversibleAll(lines: Lines, log: seq<Delta>)
    decreases |log|
  {
    log != [] ==>
      && Reversible(lines, log[|log| - 1])
      && ReversibleAll(RevertDelta(lines, log[|log| - 1]), log[..|log| - 1])
  }

  lemma RemoveEverything(lines: Lines)
    ensures var last := if lines == [] then 0 else |lines[|lines| - 1]|;
            RemoveEffect(lines, Range(Position(0, 0), Position(|lines|, last))) == if lines == [] then [] else [""]
  {
    if lines != [] {
      var last := lines[|lines| - 1];
      var end := Position(|lines| - 1, |last|);
      var range := Range(Position(0, 0), Position(|lines|, |last|));
      assert Clip(lines, range.start) == Position(0, 0) && Clip(lines, range.end) == end;
      assert Left(lines[0], 0) + Right(last, |last|) == "";
      if end != Position(0, 0) {
        assert Splice(lines, 0, |lines|, [""]) == [""];
      } else {
        assert lines[0] == "" && lines == [""];
      }
    }
  }

  /** Undoing is possible after a log of edits. */
  lemma {:induction false} FittingIsReversible(lines: Lines, log: seq<Delta>)
    requires FitsAll(lines, log)
    ensures ReversibleAll(After(lines, log), log)
    decreases |log|
  {
    hide ApplyDelta, RevertDelta, Fits;
    if log != [] {
      var init := log[..|log| - 1];
      FittingIsReversible(lines, init);
      RevertUndoes(After(lines, init), log[|log| - 1]);
    }
  }

  lemma AfterPrefix(lines: Lines, log: seq<Delta>, i: nat)
    requires i < |log|
    ensures After(lines, log[..i + 1]) == ApplyDelta(After(lines, log[..i]), log[i])
  {
    assert log[..i + 1][..i] == log[..i];
  }

  lemma PrefixFits(lines: Lines, log: seq<Delta>, i: nat)
    requires FitsAll(lines, log) && i < |log|
    ensures Fits(After(lines, log[..i]), log[i]) && log[..i + 1][..i] == log[..i]
    decreases |log|
  {
    hide ApplyDelta, Fits;
    assert log[..i + 1][..i] == log[..i];
    if i < |log| - 1 {
      var init := log[..|log| - 1];
      PrefixFits(lines, init, i);
      assert init[..i] == log[..i];
    }
  }

  /** What undoing an edit needs of the lines it led to. */
  lemma ReversedInBounds(lines: Lines, d: Delta)
    requires Reversible(lines, d)
    ensures var s, e := d.range.start, d.range.end;
            match d
            case InsertLines(_, _) => s.row < e.row < |lines|
            case InsertText(_, _) => ValidRange(lines, d.range)
            case RemoveLines(_, _, _) => s.row < |lines|
            case RemoveText(_, _) => ValidPosition(lines, Clip(lines, s))
  {
    hide InsertEffect, RemoveEffect, InsertLinesEffect;
    var l0 :| Fits(l0, d) && ApplyDelta(l0, d) == lines;
    var s, e := d.range.start, d.range.end;
    match d
    case InsertLines(_, ins) => ChunksMakeWhole(l0, s.row, ins);
    case InsertText(_, text) =>
      if IsNewLine(text) {
        InsertNewLineEffect(l0, s, text);
      } else {
        InsertInLineEffect(l0, s, text);
      }
    case RemoveLines(_, _, _) =>
    case RemoveText(_, text) =>
      if IsNewLine(text) {
        NewLineSpansRows(l0, d);
        RemoveNewLineEffect(l0, s.row);
      } else {
        NewLineSpansRows(l0, d);
        RemoveInLineEffect(l0, d.range);
      }
  }

  lemma StillInside(lines: Lines, row: nat, ins: Lines)
    ensures row < |lines| ==> row < |InsertLinesEffect(lines, row, ins)|
  {
    if row < |lines| {
      ChunksMakeWhole(lines, row, ins);
    }
  }

  lemma InsertNothing(lines: Lines, position: Position)
    ensures InsertEffect(lines, position, "") == lines && InsertEnd(lines, position, "") == position
  {
  }

  lemma RowsOfBroken(lines: Lines, p: Position, broken: Lines)
    requires p == Clip(lines, p) && broken == Broken(lines, p)
    ensures p.row + 1 < |broken|
  {
  }

  /** The end that `InsertLines` reports is a line of the new document. */
  lemma RowsOfSplice(lines: Lines, row: nat, ins: Lines, end: Position)
    requires row < |lines| && end == Position(row + LastChunk(|ins|), 0)
    ensures var l := Splice(lines, row, 0, ins);
            end == Clip(l, end) && ValidPosition(l, end)
  {
  }

  ghost predicate ValidRange(lines: Lines, range: Range) {
    var s, e := Clip(lines, range.start), Clip(lines, range.end);
    ValidPosition(lines, s) && ValidPosition(lines, e) && s.row <= e.row && (s.row == e.row ==> s.column <= e.column)
  }

  lemma ClippedRemove(lines: Lines, range: Range)
    ensures var s, e := Clip(lines, range.start), Clip(lines, range.end);
            && (s != e ==> s.row < |lines| && e.row < |lines|)
            && RemoveEffect(lines, range) == RemoveEffect(lines, Range(s, e))
            && (s == e ==> RemoveEffect(lines, range) == lines)
            && (s.row > e.row ==> RemoveEffect(lines, range) == Crossed(lines, s, e))
            && (s.row == e.row && s != e ==> RemoveEffect(lines, range) == Cut(lines, s.row, s.column, e.column))
  {
  }

  lemma FreeLine(lines: Lines, row: nat)
    requires row < |lines|
    ensures AllFree(lines) ==> NewLineFree(lines[row])
  {
  }

  lemma AfterCut(lines: Lines, row: nat, column: nat, l1: Lines)
    requires row < |lines|
    requires l1 == Cut(lines, row, 0, column) || (l1 == lines && column == 0)
    ensures l1 == Cut(lines, row, 0, column) && |l1| == |lines|
    ensures forall i | 0 <= i < row :: l1[i] == lines[i]
  {
  }

  lemma SpliceNone(lines: Lines, row: nat)
    ensures Splice(lines, row, 0, []) == lines
  {
  }

  lemma AfterRows(lines: Lines, first: nat, last: nat, l2: Lines)
    requires first < last < |lines| && l2 == Splice(lines, first + 1, last - (first + 1), [])
    ensures first + 1 < |l2| && l2[first] == lines[first]
  {
  }

  lemma CutRows(lines: Lines, row: nat, a: nat, b: nat)
    requires row < |lines|
    ensures |Cut(lines, row, a, b)| == |lines|
  {
  }

  // No line breaks inside lines -------------------------------------------------------------------------

  lemma FreeParts(line: string, column: nat)
    requires NewLineFree(line)
    ensures NewLineFree(Left(line, column)) && NewLineFree(Right(line, column))
  {
  }

  lemma FreeInsert(lines: Lines, position: Position, text: string)
    requires AllFree(lines)
    ensures AllFree(InsertEffect(lines, position, text))
  {
    if text != "" {
      var p, parts := Clip(lines, position), Split(text);
      var line := LineAt(lines, p.row);
      FreeParts(line, p.column);
      var left, right := Left(line, p.column), Right(line, p.column);
      hide Split, Left, Right;
      assert parts[0] in parts && parts[|parts| - 1] in parts;
      if |parts| == 1 {
        InsertOnePart(lines, position, text);
        FreeSplice(lines, p.row, 1, [left + text + right]);
      } else {
        ManyPartsEffect(lines, position, text);
        var broken, row := Opened(lines, p, parts), EndRow(p, parts);
        forall part | part in parts[1..|parts| - 1] ensures part in parts {
        }
        FreeSplice(lines, p.row, 1, [left + parts[0]] + parts[1..|parts| - 1] + [right]);
        assert broken[row] in broken;
        FreeUpdate(broken, row, parts[|parts| - 1]);
      }
    }
  }

  lemma FreeUpdate(lines: Lines, row: nat, last: string)
    requires AllFree(lines) && row < |lines| && NewLineFree(last)
    ensures AllFree(lines[row := last + lines[row]])
  {
    assert lines[row] in lines;
  }

  lemma FreeSplice(lines: Lines, row: nat, count: nat, ins: Lines)
    requires AllFree(lines) && AllFree(ins)
    ensures AllFree(Splice(lines, row, count, ins))
  {
  }

  lemma FreeInsertLines(lines: Lines, row: nat, ins: Lines)
    requires AllFree(lines) && AllFree(ins)
    ensures AllFree(InsertLinesEffect(lines, row, ins))
    decreases |ins|
  {
    if |ins| > CHUNK {
      FreeInsertLines(lines, row, ins[CHUNK..]);
      FreeSplice(InsertLinesEffect(lines, row, ins[CHUNK..]), row, 0, ins[..CHUNK]);
    } else {
      FreeSplice(lines, row, 0, ins);
    }
  }

  lemma FreeLineAt(lines: Lines, row: nat)
    requires AllFree(lines)
    ensures NewLineFree(LineAt(lines, row))
  {
  }

  lemma FreeCut(lines: Lines, row: nat, a: nat, b: nat)
    requires AllFree(lines)
    ensures AllFree(Cut(lines, row, a, b))
  {
    FreeLineAt(lines, row);
    FreeParts(LineAt(lines, row), a);
    FreeParts(LineAt(lines, row), b);
    FreeSplice(lines, row, 1, [Left(LineAt(lines, row), a) + Right(LineAt(lines, row), b)]);
  }

  lemma FreeJoined(lines: Lines, row: nat)
    requires AllFree(lines)
    ensures AllFree(Joined(lines, row))
  {
    FreeLineAt(lines, row);
    FreeLineAt(lines, row + 1);
    FreeSplice(lines, row, 2, [LineAt(lines, row) + LineAt(lines, row + 1)]);
  }

  lemma FreeRemove(lines: Lines, range: Range)
    requires AllFree(lines)
    ensures AllFree(RemoveEffect(lines, range))
  {
    hide Splice, AllFree, Left, Right, LineAt, NewLineFree, Cut, Joined;
    var s, e := Clip(lines, range.start), Clip(lines, range.end);
    if s.row > e.row {
      FreeCut(lines, e.row, 0, e.column);
      var l := Cut(lines, e.row, 0, e.column);
      FreeCut(l, s.row, s.column, |LineAt(l, s.row)|);
      FreeJoined(Cut(l, s.row, s.column, |LineAt(l, s.row)|), s.row);
    } else {
      FreeAround(lines, s, e);
      FreeSplice(lines, s.row, e.row - s.row + 1, [Left(LineAt(lines, s.row), s.column) + Right(LineAt(lines, e.row), e.column)]);
    }
  }

  lemma FreeAround(lines: Lines, s: Position, e: Position)
    requires AllFree(lines)
    ensures AllFree([Left(LineAt(lines, s.row), s.column) + Right(LineAt(lines, e.row), e.column)])
  {
    FreeLineAt(lines, s.row);
    FreeLineAt(lines, e.row);
    FreeParts(LineAt(lines, s.row), s.column);
    FreeParts(LineAt(lines, e.row), e.column);
  }

  /** No delta that carries free lines puts a line break inside a line. */
  lemma FreeApplied(lines: Lines, d: Delta)
    requires AllFree(lines) && FreeDelta(d)
    ensures AllFree(ApplyDelta(lines, d))
  {
    hide AllFree, InsertLinesEffect, InsertEffect, RemoveEffect, Splice;
    match d
    case InsertLines(range, ins) => FreeInsertLines(lines, range.start.row, ins);
    case InsertText(range, text) => FreeInsert(lines, range.start, text);
    case RemoveLines(range, _, _) => FreeTaken(lines, range);
    case RemoveText(range, _) => FreeRemove(lines, range);
  }

  lemma FreeTaken(lines: Lines, range: Range)
    requires AllFree(lines)
    ensures AllFree(Splice(lines, range.start.row, Span(range.start.row, range.end.row), []))
  {
    FreeSplice(lines, range.start.row, Span(range.start.row, range.end.row), []);
  }

  lemma FreeReverted(lines: Lines, d: Delta)
    requires AllFree(lines) && FreeDelta(d)
    ensures AllFree(RevertDelta(lines, d))
  {
    hide AllFree, InsertLinesEffect, InsertEffect, RemoveEffect, Splice;
    match d
    case InsertLines(range, _) => FreeTaken(lines, range);
    case InsertText(range, _) => FreeRemove(lines, range);
    case RemoveLines(range, _, removed) => FreeInsertLines(lines, range.start.row, removed);
    case RemoveText(range, text) => FreeInsert(lines, range.start, text);
  }

  // Undoing one edit ---------------------------------------------------------------------------------------

  lemma RevertedOne(lines: Lines, d: Delta)
    ensures Reverted(lines, [d]) == RevertDelta(lines, d)
  {
    assert [d][..0] == [];
    var l := RevertDelta(lines, d);
    assert Reverted(l, []) == l;
  }

  lemma {:induction false} RevertedConcat(lines: Lines, a: seq<Delta>, b: seq<Delta>)
    ensures Reverted(lines, a + b) == Reverted(Reverted(lines, b), a)
    decreases |b|
  {
    hide RevertDelta;
    if b == [] {
      assert a + b == a;
    } else {
      var n := |b| - 1;
      assert (a + b)[..|a + b| - 1] == a + b[..n] && (a + b)[|a + b| - 1] == b[n];
      RevertedConcat(RevertDelta(lines, b[n]), a, b[..n]);
    }
  }

  /** All of these deltas insert lines at one row. */
  predicate AllAt(log: seq<Delta>, row: nat) {
    forall d | d in log :: d.InsertLines? && d.range.start.row == row
  }

  /** Undoing insertions at a row takes nothing from above it. */
  lemma {:induction false} UndoneBelow(lines: Lines, log: seq<Delta>, row: nat)
    requires AllAt(log, row)
    ensures |Reverted(lines, log)| >= Min(row, |lines|)
    decreases |log|
  {
    if log != [] {
      var d := log[|log| - 1];
      UndoneBelow(RevertDelta(lines, d), log[..|log| - 1], row);
    }
  }

  lemma InsertLinesUndone(lines: Lines, row: nat, ins: Lines)
    ensures row <= |lines| ==>
              RevertDelta(Splice(lines, row, 0, ins), InsertLines(Range(Position(row, 0), Position(row + |ins|, 0)), ins)) == lines
  {
  }

  /** Undoing an insertion of lines, chunk by chunk. */
  lemma LastUndone(lines: Lines, row: nat, ins: Lines, before: Lines, head: Lines, log: seq<Delta>, d: Delta)
    requires ins != [] && before == (if |ins| > CHUNK then InsertLinesEffect(lines, row, ins[CHUNK..]) else lines)
    requires head == if |ins| > CHUNK then ins[..CHUNK] else ins
    requires d == InsertLines(Range(Position(row, 0), Position(row + |head|, 0)), head) && AllAt(log, row)
    requires Reverted(before, log) == lines <==> row <= |lines| || |ins| <= CHUNK
    ensures AllAt(log + [d], row)
    ensures Reverted(Splice(before, row, 0, head), log + [d]) == lines <==> row <= |lines|
  {
    hide InsertLinesEffect, Reverted;
    var l := Splice(before, row, 0, head);
    RevertedConcat(l, log, [d]);
    RevertedOne(l, d);
    if |ins| > CHUNK {
      InsertedSize(lines, row, ins[CHUNK..]);
    }
    if row <= |lines| {
      InsertLinesUndone(before, row, head);
    } else {
      UndoneBelow(l, log + [d], row);
    }
  }

  lemma RevertedNone(lines: Lines)
    ensures Reverted(lines, []) == lines
  {
  }

  lemma {:induction false} InsertedSize(lines: Lines, row: nat, ins: Lines)
    ensures |InsertLinesEffect(lines, row, ins)| == |lines| + |ins|
    decreases |ins|
  {
    if |ins| > CHUNK {
      InsertedSize(lines, row, ins[CHUNK..]);
    }
  }

  lemma InsertNewLineUndoneIff(lines: Lines, position: Position, nl: string)
    ensures var p := Clip(lines, position);
            RevertDelta(Broken(lines, p), InsertText(Range(p, Position(p.row + 1, 0)), nl)) == lines <==> lines != []
  {
    var p := Clip(lines, position);
    if lines != [] {
      hide RemoveEffect;
      var line := lines[p.row];
      var left, right := Left(line, p.column), Right(line, p.column);
      BreakParts(line, p.column);
      var broken := Broken(lines, p);
      assert broken == lines[..p.row] + [left, right] + lines[p.row + 1..];
      AcrossRows(broken, p, Position(p.row + 1, 0));
      assert broken[..p.row] + [line] + broken[p.row + 2..] == lines;
    }
  }

  lemma BreakParts(line: string, column: nat)
    ensures Left(Left(line, column), column) + Right(Right(line, column), 0) == line
  {
  }

  lemma InsertInLineUndoneIff(lines: Lines, p: Position, text: string)
    requires text != "" && p.row <= |lines|
    ensures RevertDelta(InLine(lines, p, text), InsertText(Range(p, Position(p.row, p.column + |text|)), text)) == lines
            <==> ValidPosition(lines, p)
  {
    var line := LineAt(lines, p.row);
    var longer := Left(line, p.column) + text + Right(line, p.column);
    var l := InLine(lines, p, text);
    assert l[p.row] == longer;
    var back := Left(longer, p.column) + Right(longer, p.column + |text|);
    assert RevertDelta(l, InsertText(Range(p, Position(p.row, p.column + |text|)), text)) == l[p.row := back];
    if p.row < |lines| {
      if p.column <= |line| {
        assert back == line;
        assert l[p.row := line] == lines;
      } else {
        assert |Left(longer, p.column)| > |line|;
        assert l[p.row := back][p.row] != lines[p.row];
      }
    }
  }

  /** The removed text is put back in one piece, and where it was. */
  predicate CutComesBack(lines: Lines, row: nat, a: nat, b: nat) {
    && row < |lines| && (a <= b || b >= |lines[row]|)
    && NewLineFree(Substring(lines[row], a, b))
  }

  lemma CutUndoneIff(lines: Lines, row: nat, a: nat, b: nat)
    requires a != b
    ensures var d := RemoveText(Range(Position(row, a), Position(row, b)), Substring(LineAt(lines, row), a, b));
            RevertDelta(Cut(lines, row, a, b), d) == lines <==> CutComesBack(lines, row, a, b)
  {
    var text := Substring(LineAt(lines, row), a, b);
    var l := Cut(lines, row, a, b);
    if row >= |lines| {
      assert |l| == |lines| + 1;
    } else {
      var line := lines[row];
      var shorter := Left(line, a) + Right(line, b);
      assert l == lines[row := shorter];
      if text == "" {
        CutNothing(line, a, b);
      } else if NewLineFree(text) {
        SplitNewLineFree(text);
        PutBack(line, a, b);
        assert InsertEffect(l, Position(row, a), text) == l[row := Left(shorter, a) + text + Right(shorter, a)];
        assert lines[row := shorter][row := Left(shorter, a) + text + Right(shorter, a)] == lines[row := Left(shorter, a) + text + Right(shorter, a)];
      } else {
        MoreRows(l, Position(row, a), text);
      }
    }
  }

  lemma CutNothing(line: string, a: nat, b: nat)
    requires a != b && Substring(line, a, b) == ""
    ensures Left(line, a) + Right(line, b) == line && (a <= b || b >= |line|)
  {
  }

  lemma PutBack(line: string, a: nat, b: nat)
    requires a != b && Substring(line, a, b) != ""
    ensures var shorter := Left(line, a) + Right(line, b);
            Left(shorter, a) + Substring(line, a, b) + Right(shorter, a) == line <==> a <= b
  {
    var shorter, text := Left(line, a) + Right(line, b), Substring(line, a, b);
    if a < b {
      assert Left(shorter, a) == Left(line, a) && Right(shorter, a) == Right(line, b);
    } else {
      assert |shorter| > |line|;
    }
  }

  /** Text with a line break makes more rows. */
  lemma MoreRows(lines: Lines, p: Position, text: string)
    requires p.row < |lines| && !NewLineFree(text)
    ensures |InsertEffect(lines, p, text)| > |lines|
  {
    var parts := Split(text);
    if |parts| == 1 {
      SplitOnce(text);
    } else {
      ManyPartsEffect(lines, p, text);
      hide Split, Left, Right, LastChunk;
    }
  }

  lemma RemoveLinesUndone(lines: Lines, first: nat, end: nat, nl: string)
    ensures RevertDelta(Splice(lines, first, Span(first, end), []),
                        RemoveLines(Range(Position(first, 0), Position(end, 0)), nl, Taken(lines, first, end))) == lines
  {
    var l := Splice(lines, first, Span(first, end), []);
    var taken := Taken(lines, first, end);
    if taken == [] {
      assert l == lines;
      assert InsertLinesEffect(l, first, []) == l;
    } else {
      ChunksMakeWhole(l, first, taken);
    }
  }

  lemma JoinUndoneIff(lines: Lines, row: nat, nl: string)
    requires IsNewLine(nl)
    ensures RevertDelta(Joined(lines, row), RemoveText(Range(Position(row, |LineAt(lines, row)|), Position(row + 1, 0)), nl)) == lines
            <==> row + 1 < |lines|
  {
    hide InsertEffect, Split;
    var l, p := Joined(lines, row), Position(row, |LineAt(lines, row)|);
    BreakIsNotFree(nl);
    if row + 1 < |lines| {
      JoinUndone(lines, row, nl);
    } else if row < |lines| {
      assert lines[row] + "" == lines[row];
      assert l == lines;
      MoreRows(l, p, nl);
    } else {
      assert |l| == |lines| + 1;
      MoreRows(l, Clip(l, p), nl);
      ClippedInsert(l, p, nl);
    }
  }

  lemma JoinUndone(lines: Lines, row: nat, nl: string)
    requires IsNewLine(nl) && row + 1 < |lines|
    ensures InsertEffect(Joined(lines, row), Position(row, |lines[row]|), nl) == lines
  {
    hide InsertEffect, Split;
    var l, p := Joined(lines, row), Position(row, |lines[row]|);
    assert l[row] == lines[row] + lines[row + 1];
    InsertNewLineEffect(l, p, nl);
    assert Left(l[row], p.column) == lines[row] && Right(l[row], p.column) == lines[row + 1];
    assert l[..row] == lines[..row] && l[row + 1..] == lines[row + 2..];
    hide Left, Right, Joined;
    assert lines == lines[..row] + [lines[row], lines[row + 1]] + lines[row + 2..];
  }

  lemma ClippedInsert(lines: Lines, p: Position, text: string)
    ensures InsertEffect(lines, p, text) == InsertEffect(lines, Clip(lines, p), text)
  {
    hide Split;
  }

  lemma BreakIsNotFree(nl: string)
    requires IsNewLine(nl)
    ensures !NewLineFree(nl)
  {
    assert nl[0] in nl;
  }
}
