/** The worker side: the mirrored document, error positions, and anchors that follow edits. */
module Worker {
  import opened DocText
  import opened FlatText
  import opened Documents
  import opened Anchors

  /** Turns an offset into the document's value into a row and column. */
  method CharToDocumentPosition(doc: Document, charPos: nat) returns (pos: Position)
    requires doc.Valid()
    ensures var k := |doc.NewLineCharacter()|;
            && (forall p | ValidPosition(doc.lines, p) && Offset(doc.lines, p, k) == charPos :: pos == p)
            && (doc.lines != [] && charPos < RowStart(doc.lines, |doc.lines|, k) ==>
                  pos.row < |doc.lines| && pos.column < |doc.lines[pos.row]| + k && Offset(doc.lines, pos, k) == charPos)
            && (doc.lines != [] && charPos >= RowStart(doc.lines, |doc.lines|, k) ==>
                  pos == Position(|doc.lines| - 1, |doc.lines[|doc.lines| - 1]|))
            && (doc.lines == [] ==> pos == Position(0, 0))
  {
    var i := 0;
    var len := |doc.lines|;
    var nl := |doc.NewLineCharacter()|;
    if len == 0 {
      return Position(0, 0);
    }
    var lineStart := 0;
    var line := "";
    while i < len
      invariant 0 <= i <= len && lineStart == RowStart(doc.lines, i, nl) && lineStart <= charPos
      invariant i > 0 ==> line == doc.lines[i - 1]
    {
      line := LineAt(doc.lines, i);
      var lineLength := |line| + nl;
      if lineStart + lineLength > charPos {
        pos := Position(i, charPos - lineStart);
        forall p | ValidPosition(doc.lines, p) && Offset(doc.lines, p, nl) == charPos ensures pos == p {
          OffsetDetermines(doc.lines, p, i, charPos - lineStart, nl);
        }
        RowStartMonotonic(doc.lines, i + 1, len, nl);
        return;
      }
      lineStart := lineStart + lineLength;
      i := i + 1;
    }
    forall p | ValidPosition(doc.lines, p) ensures Offset(doc.lines, p, nl) < charPos {
      OffsetInside(doc.lines, p, nl);
    }
    pos := Position(i - 1, |line|);
  }

  class Mirror {
    const doc: Document

    constructor ()
      ensures doc.Valid() && doc.lines == [""] && fresh(doc)
    {
      doc := new Document("");
    }

    /** Handles one change message from the editor. */
    method OnChange(delta: Delta)
      requires doc.Valid()
      modifies doc
      ensures doc.Valid() && doc.lines == ApplyDelta(old(doc.lines), delta)
    {
      assert [delta][..0] == [];
      var emitted := doc.ApplyDeltas([delta]);
    }
  }

  // Runs of edits ---------------------------------------------------------------------------------------

  /** The public methods that change a document. */
  datatype Edit =
    | InsertEdit(position: Position, text: string)
    | RemoveEdit(range: Range)
    | SetValueEdit(text: string)
    | InsertLinesEdit(row: nat, lines: Lines)
    | InsertNewLineEdit(position: Position)
    | InsertInLineEdit(position: Position, text: string)
    | RemoveInLineEdit(row: nat, start: nat, end: nat)
    | RemoveLinesEdit(first: nat, end: nat)
    | RemoveNewLineEdit(row: nat)
    | ApplyEdit(deltas: seq<Delta>)
    | RevertEdit(deltas: seq<Delta>)

  function Effect(lines: Lines, e: Edit): Lines {
    match e
    case InsertEdit(position, text) => InsertEffect(lines, position, text)
    case RemoveEdit(range) => RemoveEffect(lines, range)
    case SetValueEdit(text) => InsertEffect(if lines == [] then [] else [""], Position(0, 0), text)
    case InsertLinesEdit(row, ins) => InsertLinesEffect(lines, row, ins)
    case InsertNewLineEdit(position) => Broken(lines, Clip(lines, position))
    case InsertInLineEdit(position, text) => InLine(lines, position, text)
    case RemoveInLineEdit(row, start, end) => Cut(lines, row, start, end)
    case RemoveLinesEdit(first, end) => Splice(lines, first, Span(first, end), [])
    case RemoveNewLineEdit(row) => Joined(lines, row)
    case ApplyEdit(deltas) => After(lines, deltas)
    case RevertEdit(deltas) => Reverted(lines, deltas)
  }

  /** Text put into a line more than one past the last leaves holes in the array, which lines do not have. */
  predicate Possible(lines: Lines, e: Edit) {
    e.InsertInLineEdit? && e.text != "" ==> e.position.row <= |lines|
  }

  /** A replica can follow: edits of one line name a line that is there, and no line break is put into it. */
  predicate Followed(lines: Lines, e: Edit) {
    match e
    case InsertInLineEdit(position, text) => text == "" || (NewLineFree(text) && InDocument(lines, position))
    case RemoveInLineEdit(row, start, end) => row < |lines| || start == end
    case RemoveNewLineEdit(row) => row < |lines|
    case _ => true
  }

  /** The edit names positions of the document it is applied to, or it undoes what was done to it. */
  ghost predicate InBounds(lines: Lines, e: Edit) {
    && FreeEdit(e)
    && match e
       case InsertEdit(position, _) => ValidPosition(lines, Clip(lines, position))
       case RemoveEdit(range) => ValidRange(lines, range)
       case SetValueEdit(_) => lines != []
       case InsertLinesEdit(row, _) => row < |lines|
       case InsertNewLineEdit(position) => ValidPosition(lines, Clip(lines, position))
       case InsertInLineEdit(position, _) => ValidPosition(lines, position)
       case RemoveInLineEdit(row, start, end) => row < |lines| && start <= end <= |lines[row]|
       case RemoveLinesEdit(first, end) => first < end < |lines|
       case RemoveNewLineEdit(row) => row + 1 < |lines|
       case ApplyEdit(deltas) => FitsAll(lines, deltas)
       case RevertEdit(deltas) => ReversibleAll(lines, deltas)
  }

  /** What the edit puts into single lines has no line breaks. */
  predicate FreeEdit(e: Edit) {
    match e
    case InsertLinesEdit(_, ins) => AllFree(ins)
    case InsertInLineEdit(_, text) => NewLineFree(text)
    case ApplyEdit(deltas) => AllFreeDeltas(deltas)
    case RevertEdit(deltas) => AllFreeDeltas(deltas)
    case _ => true
  }

  lemma InBoundsIsFollowed(lines: Lines, e: Edit)
    requires InBounds(lines, e)
    ensures Followed(lines, e) && FreeEdit(e)
  {
  }

  /** The edits of one line, and of whole lines; the others are made up of these. */
  predicate Primitive(e: Edit) {
    e.InsertLinesEdit? || e.InsertNewLineEdit? || e.InsertInLineEdit? || e.RemoveInLineEdit? || e.RemoveLinesEdit? || e.RemoveNewLineEdit?
  }

  /** Reverting what the edit emits restores the lines: exactly then for a primitive edit. */
  ghost predicate Undone(lines: Lines, e: Edit) {
    match e
    case InsertLinesEdit(row, ins) => row <= |lines| || ins == []
    case InsertNewLineEdit(_) => lines != []
    case InsertInLineEdit(position, text) => text == "" || ValidPosition(lines, position)
    case RemoveInLineEdit(row, start, end) => start == end || CutComesBack(lines, row, start, end)
    case RemoveLinesEdit(_, _) => true
    case RemoveNewLineEdit(row) => row + 1 < |lines|
    case _ => InBounds(lines, e) && AllFree(lines)
  }

  /** Edits in bounds of lines without line breaks are undone. */
  lemma InBoundsIsUndone(lines: Lines, e: Edit)
    requires InBounds(lines, e) && AllFree(lines)
    ensures Undone(lines, e)
  {
    if e.RemoveInLineEdit? {
      assert lines[e.row] in lines;
    }
  }

  function RunEffect(lines: Lines, edits: seq<Edit>): Lines {
    if edits == [] then lines else Effect(RunEffect(lines, edits[..|edits| - 1]), edits[|edits| - 1])
  }

  predicate RunFollowed(lines: Lines, edits: seq<Edit>) {
    edits != [] ==>
      && RunFollowed(lines, edits[..|edits| - 1])
      && Followed(RunEffect(lines, edits[..|edits| - 1]), edits[|edits| - 1])
  }

  ghost predicate RunInBounds(lines: Lines, edits: seq<Edit>) {
    edits != [] ==>
      && RunInBounds(lines, edits[..|edits| - 1])
      && InBounds(RunEffect(lines, edits[..|edits| - 1]), edits[|edits| - 1])
  }

  predicate RunPossible(lines: Lines, edits: seq<Edit>) {
    edits != [] ==>
      && RunPossible(lines, edits[..|edits| - 1])
      && Possible(RunEffect(lines, edits[..|edits| - 1]), edits[|edits| - 1])
  }

  ghost predicate RunUndone(lines: Lines, edits: seq<Edit>) {
    edits != [] ==>
      && RunUndone(lines, edits[..|edits| - 1])
      && Undone(RunEffect(lines, edits[..|edits| - 1]), edits[|edits| - 1])
  }

  lemma {:induction false} RunFollowedIsPossible(lines: Lines, edits: seq<Edit>)
    requires RunFollowed(lines, edits)
    ensures RunPossible(lines, edits)
    decreases |edits|
  {
    hide Possible, Followed, Effect;
    if edits != [] {
      RunFollowedIsPossible(lines, edits[..|edits| - 1]);
      FollowedIsPossible(RunEffect(lines, edits[..|edits| - 1]), edits[|edits| - 1]);
    }
  }

  /** A run in bounds, on lines without line breaks, can be undone. */
  lemma {:induction false} RunInBoundsIsUndone(lines: Lines, edits: seq<Edit>)
    requires RunInBounds(lines, edits) && AllFree(lines)
    ensures RunUndone(lines, edits) && AllFree(RunEffect(lines, edits))
    decreases |edits|
  {
    hide InBounds, Undone, Effect, AllFree, FreeEdit;
    if edits != [] {
      var before, e := RunEffect(lines, edits[..|edits| - 1]), edits[|edits| - 1];
      RunInBoundsIsUndone(lines, edits[..|edits| - 1]);
      InBoundsIsUndone(before, e);
      InBoundsIsFollowed(before, e);
      FreeEffect(before, e);
    }
  }

  lemma {:induction false} RunInBoundsIsFollowed(lines: Lines, edits: seq<Edit>)
    requires RunInBounds(lines, edits)
    ensures RunFollowed(lines, edits)
    decreases |edits|
  {
    hide InBounds, Followed, Effect;
    if edits != [] {
      RunInBoundsIsFollowed(lines, edits[..|edits| - 1]);
      InBoundsIsFollowed(RunEffect(lines, edits[..|edits| - 1]), edits[|edits| - 1]);
    }
  }

  lemma PrefixPossible(lines: Lines, edits: seq<Edit>, i: nat)
    requires RunPossible(lines, edits) && i < |edits|
    ensures Possible(RunEffect(lines, edits[..i]), edits[i])
    decreases |edits|
  {
    hide Possible, Effect;
    if i < |edits| - 1 {
      var init := edits[..|edits| - 1];
      PrefixPossible(lines, init, i);
      assert init[..i] == edits[..i];
    }
  }

  method Perform(doc: Document, e: Edit) returns (ghost emitted: seq<Delta>)
    requires doc.Valid() && Possible(doc.lines, e)
    modifies doc
    ensures doc.Valid() && doc.log == old(doc.log) + emitted
    ensures doc.lines == Effect(old(doc.lines), e)
    ensures Emits(old(doc.lines), emitted, doc.lines) <==> Followed(old(doc.lines), e)
    ensures InBounds(old(doc.lines), e) && AllFree(old(doc.lines)) ==> FitsAll(old(doc.lines), emitted)
    ensures FreeEdit(e) && AllFree(old(doc.lines)) ==> AllFreeDeltas(emitted)
    ensures Undone(old(doc.lines), e) ==> Reverted(doc.lines, emitted) == old(doc.lines)
    ensures Primitive(e) && Reverted(doc.lines, emitted) == old(doc.lines) ==> Undone(old(doc.lines), e)
  {
    hide AllFree, AllFreeDeltas, CutComesBack, Emits, FitsAll, InsertEffect, RemoveEffect, InsertLinesEffect, After, Reverted, ReversibleAll, Broken, InLine, Cut, Joined,
      InsertEnd, NewLineFree;
    ghost var start := doc.lines;
    var end;
    match e {
      case InsertEdit(position, text) => end, emitted := doc.Insert(position, text);
      case RemoveEdit(range) => end, emitted := doc.Remove(range);
      case SetValueEdit(text) => emitted := doc.SetValue(text);
      case InsertLinesEdit(row, ins) => end, emitted := doc.InsertLines(row, ins);
      case InsertNewLineEdit(position) => end, emitted := doc.InsertNewLine(position);
      case InsertInLineEdit(position, text) => end, emitted := doc.InsertInLine(position, text);
      case RemoveInLineEdit(row, start, last) => emitted := PerformCut(doc, row, start, last);
      case RemoveLinesEdit(first, last) => emitted := doc.RemoveLines(first, last - 1);
      case RemoveNewLineEdit(row) => emitted := doc.RemoveNewLine(row);
      case ApplyEdit(deltas) => emitted := doc.ApplyDeltas(deltas);
      case RevertEdit(deltas) => emitted := doc.RevertDeltas(deltas);
    }
    if FitsAll(start, emitted) && Emits(start, emitted, doc.lines) {
      EmittedIsUndone(start, emitted, doc.lines);
    }
  }

  lemma EmittedIsUndone(lines: Lines, log: seq<Delta>, lines': Lines)
    requires FitsAll(lines, log) && Emits(lines, log, lines')
    ensures Reverted(lines', log) == lines
  {
    RevertedUndoes(lines, log);
  }

  method PerformCut(doc: Document, row: nat, start: nat, end: nat) returns (ghost emitted: seq<Delta>)
    requires doc.Valid()
    modifies doc
    ensures AllFreeDeltas(emitted)
    ensures doc.Valid() && doc.log == old(doc.log) + emitted
    ensures doc.lines == Cut(old(doc.lines), row, start, end)
    ensures Emits(old(doc.lines), emitted, doc.lines) <==> row < |old(doc.lines)| || start == end
    ensures row < |old(doc.lines)| && start <= end <= |old(doc.lines)[row]| && AllFree(old(doc.lines)) ==>
              FitsAll(old(doc.lines), emitted)
    ensures Reverted(doc.lines, emitted) == old(doc.lines) <==> start == end || CutComesBack(old(doc.lines), row, start, end)
  {
    hide Emits, FitsAll, Cut, NewLineFree, Reverted, CutComesBack;
    emitted := doc.RemoveInLine(row, start, end);
  }

  /** No edit puts a line break inside a line. */
  lemma FreeEffect(lines: Lines, e: Edit)
    requires AllFree(lines) && FreeEdit(e)
    ensures AllFree(Effect(lines, e))
  {
    hide AllFree, InsertEffect, RemoveEffect, InsertLinesEffect, After, Reverted, Cut, Joined, Splice, NewLineFree, Left, Right;
    match e
    case InsertEdit(position, text) => FreeInsert(lines, position, text);
    case RemoveEdit(range) => FreeRemove(lines, range);
    case SetValueEdit(text) =>
      FreeBlank();
      FreeInsert(if lines == [] then [] else [""], Position(0, 0), text);
    case InsertLinesEdit(row, ins) => FreeInsertLines(lines, row, ins);
    case InsertNewLineEdit(position) => FreeBroken(lines, Clip(lines, position));
    case InsertInLineEdit(position, text) => FreeInLine(lines, position, text);
    case RemoveInLineEdit(row, start, end) => FreeCut(lines, row, start, end);
    case RemoveLinesEdit(first, end) => FreeTaken(lines, Range(Position(first, 0), Position(end, 0)));
    case RemoveNewLineEdit(row) => FreeJoined(lines, row);
    case ApplyEdit(deltas) => FreeAfter(lines, deltas);
    case RevertEdit(deltas) => FreeRevertedAll(lines, deltas);
  }

  lemma FreeBlank()
    ensures AllFree([]) && AllFree([""])
  {
  }

  lemma FreeBroken(lines: Lines, p: Position)
    requires AllFree(lines)
    ensures AllFree(Broken(lines, p))
  {
    FreeLineAt(lines, p.row);
    var line := LineAt(lines, p.row);
    FreeParts(line, p.column);
    FreeSplice(lines, p.row, 1, [Left(line, p.column), Right(line, p.column)]);
  }

  lemma FreeInLine(lines: Lines, p: Position, text: string)
    requires AllFree(lines) && NewLineFree(text)
    ensures AllFree(InLine(lines, p, text))
  {
    FreeLineAt(lines, p.row);
    var line := LineAt(lines, p.row);
    FreeParts(line, p.column);
    FreeSplice(lines, p.row, 1, [Left(line, p.column) + text + Right(line, p.column)]);
  }

  lemma {:induction false} FreeAfter(lines: Lines, log: seq<Delta>)
    requires AllFree(lines) && AllFreeDeltas(log)
    ensures AllFree(After(lines, log))
    decreases |log|
  {
    hide AllFree, ApplyDelta, FreeDelta;
    if log != [] {
      FreeAfter(lines, log[..|log| - 1]);
      FreeApplied(After(lines, log[..|log| - 1]), log[|log| - 1]);
    }
  }

  lemma {:induction false} FreeRevertedAll(lines: Lines, log: seq<Delta>)
    requires AllFree(lines) && AllFreeDeltas(log)
    ensures AllFree(Reverted(lines, log))
    decreases |log|
  {
    hide AllFree, RevertDelta, FreeDelta;
    if log != [] {
      FreeReverted(lines, log[|log| - 1]);
      FreeRevertedAll(RevertDelta(lines, log[|log| - 1]), log[..|log| - 1]);
    }
  }

  /** Any sequence of edits: a replica can follow it, and it can be undone, when it can be step by step. */
  method Run(doc: Document, edits: seq<Edit>) returns (ghost emitted: seq<Delta>)
    requires doc.Valid() && RunPossible(doc.lines, edits)
    modifies doc
    ensures doc.Valid() && doc.log == old(doc.log) + emitted
    ensures doc.lines == RunEffect(old(doc.lines), edits)
    ensures RunFollowed(old(doc.lines), edits) ==> Emits(old(doc.lines), emitted, doc.lines)
    ensures RunUndone(old(doc.lines), edits) ==> Reverted(doc.lines, emitted) == old(doc.lines)
    ensures RunInBounds(old(doc.lines), edits) && AllFree(old(doc.lines)) ==>
              FitsAll(old(doc.lines), emitted) && AllFree(doc.lines) && AllFreeDeltas(emitted)
  {
    hide Effect, InBounds, After, FitsAll, Emits, AllFree, Followed, FreeEdit, FreeDelta, Undone, Possible, Reverted;
    ghost var start := doc.lines;
    emitted := [];
    EmitsNone(start);
    RevertedNone(start);
    var i := 0;
    while i < |edits|
      invariant 0 <= i <= |edits| && doc.Valid() && doc.log == old(doc.log) + emitted
      invariant doc.lines == RunEffect(start, edits[..i])
      invariant RunFollowed(start, edits[..i]) ==> Emits(start, emitted, doc.lines)
      invariant RunUndone(start, edits[..i]) ==> Reverted(doc.lines, emitted) == start
      invariant RunInBounds(start, edits[..i]) && AllFree(start) ==>
                  Emits(start, emitted, doc.lines) && FitsAll(start, emitted) && AllFree(doc.lines) && AllFreeDeltas(emitted)
    {
      assert edits[..i + 1][..i] == edits[..i];
      ghost var before := doc.lines;
      PrefixPossible(start, edits, i);
      ghost var more := Perform(doc, edits[i]);
      if AllFree(before) && InBounds(before, edits[i]) {
        InBoundsIsFollowed(before, edits[i]);
        FreeEffect(before, edits[i]);
      }
      if Emits(start, emitted, before) && Emits(before, more, doc.lines) {
        EmitsThen(start, emitted, before, more, doc.lines);
      }
      RevertedConcat(doc.lines, emitted, more);
      emitted := emitted + more;
      i := i + 1;
    }
    assert edits[..i] == edits;
  }

  lemma FollowedIsPossible(lines: Lines, e: Edit)
    requires Followed(lines, e)
    ensures Possible(lines, e)
  {
  }

  /** Sends deltas to a mirror in order. */
  method Send(mirror: Mirror, deltas: seq<Delta>)
    requires mirror.doc.Valid()
    modifies mirror.doc
    ensures mirror.doc.Valid() && mirror.doc.lines == After(old(mirror.doc.lines), deltas)
  {
    hide ApplyDelta;
    ghost var start := mirror.doc.lines;
    var i := 0;
    while i < |deltas|
      invariant 0 <= i <= |deltas| && mirror.doc.Valid()
      invariant mirror.doc.lines == After(start, deltas[..i])
    {
      AfterPrefix(start, deltas, i);
      mirror.OnChange(deltas[i]);
      i := i + 1;
    }
    assert deltas[..i] == deltas;
  }

  /** One edit, sent to a mirror with equal lines: they are equal again exactly when the edit can be followed. */
  method EditOnce(doc: Document, mirror: Mirror, e: Edit)
    requires doc.Valid() && mirror.doc.Valid() && doc != mirror.doc
    requires Possible(doc.lines, e) && doc.lines == mirror.doc.lines
    modifies doc, mirror.doc
    ensures doc.lines == Effect(old(doc.lines), e)
    ensures mirror.doc.lines == doc.lines <==> Followed(old(doc.lines), e)
  {
    hide After, FitsAll, Effect, Followed, InBounds;
    var sent := |doc.log|;
    ghost var emitted := Perform(doc, e);
    var deltas := doc.log[sent..];
    assert deltas == emitted;
    Send(mirror, deltas);
  }

  /**
   Replica agreement: after any sequence of edits that can be followed, undoing and replaying among them, a
   mirror that started with equal lines and was sent every delta in order has equal lines again.
   */
  method EditAndMirror(doc: Document, mirror: Mirror, edits: seq<Edit>)
    requires doc.Valid() && mirror.doc.Valid() && doc != mirror.doc
    requires RunFollowed(doc.lines, edits)
    requires doc.lines == mirror.doc.lines
    modifies doc, mirror.doc
    ensures doc.lines == RunEffect(old(doc.lines), edits)
    ensures mirror.doc.lines == doc.lines
  {
    hide After, FitsAll, RunFollowed, RunEffect, RunPossible;
    var sent := |doc.log|;
    RunFollowedIsPossible(doc.lines, edits);
    ghost var emitted := Run(doc, edits);
    var deltas := doc.log[sent..];
    assert deltas == emitted;
    Send(mirror, deltas);
  }

  /** One edit and its undo: of a primitive edit, the lines are restored exactly when it is one that is undone. */
  method EditAndUndoOnce(doc: Document, e: Edit)
    requires doc.Valid() && Possible(doc.lines, e)
    modifies doc
    ensures Undone(old(doc.lines), e) ==> doc.lines == old(doc.lines)
    ensures Primitive(e) && doc.lines == old(doc.lines) ==> Undone(old(doc.lines), e)
  {
    hide After, FitsAll, Effect, Followed, InBounds, Undone, Reverted;
    var sent := |doc.log|;
    ghost var emitted := Perform(doc, e);
    var deltas := doc.log[sent..];
    assert deltas == emitted;
    ghost var undone := doc.RevertDeltas(deltas);
  }

  /** Reverting the deltas of any sequence of edits that can be undone, each where it is made, restores the lines. */
  method EditAndUndo(doc: Document, edits: seq<Edit>)
    requires doc.Valid() && RunPossible(doc.lines, edits)
    requires RunUndone(doc.lines, edits)
    modifies doc
    ensures doc.lines == old(doc.lines)
  {
    hide RunUndone, RunPossible, Reverted, After, FitsAll;
    var sent := |doc.log|;
    ghost var emitted := Run(doc, edits);
    var deltas := doc.log[sent..];
    assert deltas == emitted;
    ghost var undone := doc.RevertDeltas(deltas);
  }

  /** Undoing what edits in bounds emitted is itself an edit in bounds, so it can be undone and tracked in turn. */
  lemma UndoIsInBounds(lines: Lines, log: seq<Delta>)
    requires FitsAll(lines, log) && AllFreeDeltas(log)
    ensures InBounds(After(lines, log), RevertEdit(log))
    ensures Effect(After(lines, log), RevertEdit(log)) == lines
  {
    FittingIsReversible(lines, log);
    RevertedUndoes(lines, log);
  }

  /** Edits, an undo of all of them, and other edits: the mirror follows through, and the first edits left nothing. */
  method EditUndoEdit(doc: Document, mirror: Mirror, edits: seq<Edit>, others: seq<Edit>)
    requires doc.Valid() && mirror.doc.Valid() && doc != mirror.doc && AllFree(doc.lines)
    requires RunInBounds(doc.lines, edits) && RunFollowed(doc.lines, others)
    requires doc.lines == mirror.doc.lines
    modifies doc, mirror.doc
    ensures doc.lines == RunEffect(old(doc.lines), others)
    ensures mirror.doc.lines == doc.lines
  {
    hide After, FitsAll, InBounds, Followed, Effect, Reverted;
    var sent := |doc.log|;
    ghost var start := doc.lines;
    RunInBoundsIsFollowed(start, edits);
    RunFollowedIsPossible(start, edits);
    ghost var emitted := Run(doc, edits);
    var deltas := doc.log[sent..];
    assert deltas == emitted;
    Send(mirror, deltas);
    sent := |doc.log|;
    ghost var undone := doc.RevertDeltas(deltas);
    assert doc.lines == start;
    var more := doc.log[sent..];
    assert more == undone;
    Send(mirror, more);
    EditAndMirror(doc, mirror, others);
  }

  /** Where a marker in a plain string goes through a whole log. */
  ghost function FollowAll(lines: Lines, log: seq<Delta>, a: nat, k: nat): nat {
    if log == [] then a
    else Follow(FollowAll(lines, log[..|log| - 1], a, k), EditOf(After(lines, log[..|log| - 1]), log[|log| - 1], k))
  }

  /**
   Anchor tracking over any sequence of edits that stay in bounds: the anchor remains a valid position,
   at the offset where a marker in the joined text would be.
   */
  method EditAndTrack(doc: Document, anchor: Anchor, edits: seq<Edit>, ghost k: nat)
    requires doc.Valid() && AllFree(doc.lines) && k > 0
    requires RunInBounds(doc.lines, edits)
    requires ValidPosition(doc.lines, anchor.At())
    modifies doc, anchor
    ensures doc.lines == RunEffect(old(doc.lines), edits)
    ensures ValidPosition(doc.lines, anchor.At())
    ensures old(doc.log) <= doc.log
    ensures Offset(doc.lines, anchor.At(), k)
            == FollowAll(old(doc.lines), doc.log[|old(doc.log)|..], Offset(old(doc.lines), old(anchor.At()), k), k)
  {
    hide ApplyDelta, Fits, Offset, Follow, EditOf, RunInBounds, ValidPosition;
    ghost var start, from := doc.lines, Offset(doc.lines, anchor.At(), k);
    var sent := |doc.log|;
    RunInBoundsIsFollowed(start, edits);
    RunFollowedIsPossible(start, edits);
    ghost var emitted := Run(doc, edits);
    var deltas := doc.log[sent..];
    assert deltas == emitted;
    var i := 0;
    while i < |deltas|
      invariant 0 <= i <= |deltas| && doc.lines == After(start, deltas) && doc.log == old(doc.log) + emitted
      invariant ValidPosition(After(start, deltas[..i]), anchor.At())
      invariant Offset(After(start, deltas[..i]), anchor.At(), k) == FollowAll(start, deltas[..i], from, k)
    {
      PrefixFits(start, deltas, i);
      AfterPrefix(start, deltas, i);
      anchor.OnChange(deltas[i], After(start, deltas[..i]), k);
      i := i + 1;
    }
    assert deltas[..i] == deltas;
  }
}
