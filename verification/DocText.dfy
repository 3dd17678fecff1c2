/**
 Documents as arrays of lines: what inserting and removing text does to the lines, to the text joined
 into one string, and the deltas that describe each primitive edit.
 */
module DocText {

  type Lines = seq<string>

  datatype Position = Position(row: nat, column: nat)

  datatype Range = Range(start: Position, end: Position)

  /** What listeners are told about one primitive edit. */
  datatype Delta =
    | InsertLines(range: Range, lines: Lines)
    | InsertText(range: Range, text: string)
    | RemoveLines(range: Range, nl: string, lines: Lines)
    | RemoveText(range: Range, text: string)

  const CHUNK: nat := 0xFFFF

  function Min(a: nat, b: nat): nat {
    if a <= b then a else b
  }

  /** Text before and after a column; a column past the end counts as the end. */
  function Left(s: string, column: nat): string {
    s[..Min(column, |s|)]
  }

  function Right(s: string, column: nat): string {
    s[Min(column, |s|)..]
  }

  function LineAt(lines: Lines, row: nat): string {
    if row < |lines| then lines[row] else ""
  }

  /** Replaces `count` lines from `row` on, or as many as there are. */
  function Splice(lines: Lines, row: nat, count: nat, ins: Lines): Lines {
    lines[..Min(row, |lines|)] + ins + lines[Min(row + count, |lines|)..]
  }

  function Clip(lines: Lines, p: Position): Position {
    if p.row < |lines| then p
    else if lines == [] then Position(0, 0)
    else Position(|lines| - 1, |lines[|lines| - 1]|)
  }

  predicate IsNewLine(text: string) {
    text == "\r\n" || text == "\r" || text == "\n"
  }

  predicate NewLineFree(text: string) {
    '\n' !in text && '\r' !in text
  }

  /** Splits at every line break, whichever of the three it is. */
  function Split(text: string): (parts: Lines)
    ensures |parts| > 0 && forall part | part in parts :: NewLineFree(part)
  {
    if text == "" then [""]
    else if |text| > 1 && text[0] == '\r' && text[1] == '\n' then [""] + Split(text[2..])
    else if text[0] == '\r' || text[0] == '\n' then [""] + Split(text[1..])
    else
      var rest := Split(text[1..]);
      assert NewLineFree(rest[0]) && forall part | part in rest[1..] :: part in rest;
      [[text[0]] + rest[0]] + rest[1..]
  }

  /** How many lines the last chunk of a long insertion holds. */
  function LastChunk(n: nat): (last: nat)
    ensures last <= n
  {
    if n == 0 then 0 else (n - 1) % CHUNK + 1
  }

  /** The line at `p` broken in two, with the middle parts in between and the first part appended. */
  function Opened(lines: Lines, p: Position, parts: Lines): Lines
    requires p.row <= |lines| && |parts| >= 2
  {
    var line := LineAt(lines, p.row);
    Splice(lines, p.row, 1, [Left(line, p.column) + parts[0]] + parts[1..|parts| - 1] + [Right(line, p.column)])
  }

  /** Where the insertion ends, as the code computes it. */
  function EndRow(p: Position, parts: Lines): nat
    requires |parts| >= 2
  {
    p.row + 1 + LastChunk(|parts| - 2)
  }

  function InsertEffect(lines: Lines, position: Position, text: string): Lines {
    if text == "" then lines
    else
      var p, parts := Clip(lines, position), Split(text);
      if |parts| == 1 then
        Splice(lines, p.row, 1, [Left(LineAt(lines, p.row), p.column) + text + Right(LineAt(lines, p.row), p.column)])
      else
        var broken := Opened(lines, p, parts);
        var row := EndRow(p, parts);
        broken[row := parts[|parts| - 1] + broken[row]]
  }

  function InsertEnd(lines: Lines, position: Position, text: string): Position {
    if text == "" then position
    else
      var p, parts := Clip(lines, position), Split(text);
      if |parts| == 1 then Position(p.row, p.column + |text|)
      else Position(EndRow(p, parts), |parts[|parts| - 1]|)
  }

  /** Text between the two positions goes; what a range that ends on an earlier row does is another matter. */
  function RemoveEffect(lines: Lines, range: Range): Lines {
    var s, e := Clip(lines, range.start), Clip(lines, range.end);
    if s == e then lines
    else if s.row > e.row then Crossed(lines, s, e)
    else Splice(lines, s.row, e.row - s.row + 1, [Left(LineAt(lines, s.row), s.column) + Right(LineAt(lines, e.row), e.column)])
  }

  /** Nothing between the rows goes, but each of the two is cut, and the row of the start joined with the next. */
  function Crossed(lines: Lines, s: Position, e: Position): Lines {
    var l := Cut(lines, e.row, 0, e.column);
    if s.column == 0 then l else Joined(Cut(l, s.row, s.column, |LineAt(l, s.row)|), s.row)
  }

  function Cut(lines: Lines, row: nat, a: nat, b: nat): Lines {
    if a == b then lines else Splice(lines, row, 1, [Left(LineAt(lines, row), a) + Right(LineAt(lines, row), b)])
  }

  function Joined(lines: Lines, row: nat): Lines {
    Splice(lines, row, 2, [LineAt(lines, row) + LineAt(lines, row + 1)])
  }

  /** Long insertions go in chunks, the last one first. */
  function InsertLinesEffect(lines: Lines, row: nat, ins: Lines): Lines
    decreases |ins|
  {
    if |ins| <= CHUNK then Splice(lines, row, 0, ins)
    else Splice(InsertLinesEffect(lines, row, ins[CHUNK..]), row, 0, ins[..CHUNK])
  }

  /** At a row of the document, or just after the last one, chunks make no difference. */
  lemma {:induction false} ChunksMakeWhole(lines: Lines, row: nat, ins: Lines)
    requires row <= |lines|
    ensures InsertLinesEffect(lines, row, ins) == Splice(lines, row, 0, ins)
    decreases |ins|
  {
    if |ins| > CHUNK {
      ChunksMakeWhole(lines, row, ins[CHUNK..]);
      SpliceChunks(lines, row, ins[..CHUNK], ins[CHUNK..]);
      assert ins[..CHUNK] + ins[CHUNK..] == ins;
    }
  }

  function Span(a: nat, b: nat): nat {
    if a <= b then b - a else 0
  }

  /** Replaying one delta on a document. */
  function ApplyDelta(lines: Lines, d: Delta): Lines {
    match d
    case InsertLines(range, ins) => InsertLinesEffect(lines, range.start.row, ins)
    case InsertText(range, text) => InsertEffect(lines, range.start, text)
    case RemoveLines(range, _, _) => Splice(lines, range.start.row, Span(range.start.row, range.end.row), [])
    case RemoveText(range, _) => RemoveEffect(lines, range)
  }

  /** Replaying a log of deltas in order. */
  function After(lines: Lines, log: seq<Delta>): Lines {
    if log == [] then lines else ApplyDelta(After(lines, log[..|log| - 1]), log[|log| - 1])
  }

  lemma {:induction false} AfterConcat(lines: Lines, a: seq<Delta>, b: seq<Delta>)
    ensures After(lines, a + b) == After(After(lines, a), b)
  {
    hide ApplyDelta;
    if b == [] {
      assert a + b == a;
    } else {
      var init := b[..|b| - 1];
      AfterConcat(lines, a, init);
      assert (a + b)[..|a + b| - 1] == a + init;
    }
  }

  // Reverting -----------------------------------------------------------------------------------------

  ghost predicate ValidPosition(lines: Lines, p: Position) {
    p.row < |lines| && p.column <= |lines[p.row]|
  }

  /** The delta describes, to the letter, an edit of these lines. */
  ghost predicate Fits(lines: Lines, d: Delta) {
    var s, e := d.range.start, d.range.end;
    match d
    case InsertLines(_, ins) =>
      s.row < |lines| && s.column == 0 && e == Position(s.row + |ins|, 0) && ins != []
    case InsertText(_, text) =>
      && ValidPosition(lines, s)
      && ((NewLineFree(text) && text != "" && e == Position(s.row, s.column + |text|))
          || (IsNewLine(text) && e == Position(s.row + 1, 0)))
    case RemoveLines(_, _, removed) =>
      s.row < e.row < |lines| && s.column == 0 && e.column == 0 && removed == lines[s.row..e.row]
    case RemoveText(_, text) =>
      && s.row < |lines|
      && ((s.row == e.row && s.column < e.column <= |lines[s.row]| && text == lines[s.row][s.column..e.column] && NewLineFree(text))
          || (e == Position(s.row + 1, 0) && e.row < |lines| && s.column == |lines[s.row]| && IsNewLine(text)))
  }

  /** Each delta of the log fits the lines it was emitted for. */
  ghost predicate FitsAll(lines: Lines, log: seq<Delta>) {
    log != [] ==>
      && FitsAll(lines, log[..|log| - 1])
      && Fits(After(lines, log[..|log| - 1]), log[|log| - 1])
  }

  function RevertDelta(lines: Lines, d: Delta): Lines {
    match d
    case InsertLines(range, _) => Splice(lines, range.start.row, Span(range.start.row, range.end.row), [])
    case InsertText(range, _) => RemoveEffect(lines, range)
    case RemoveLines(range, _, removed) => InsertLinesEffect(lines, range.start.row, removed)
    case RemoveText(range, text) => InsertEffect(lines, range.start, text)
  }

  /** Undoing a log, its last delta first. */
  function Reverted(lines: Lines, log: seq<Delta>): Lines
    decreases |log|
  {
    if log == [] then lines else Reverted(RevertDelta(lines, log[|log| - 1]), log[..|log| - 1])
  }

  lemma {:induction false} FitsConcat(lines: Lines, a: seq<Delta>, b: seq<Delta>)
    requires FitsAll(lines, a) && FitsAll(After(lines, a), b)
    ensures FitsAll(lines, a + b)
  {
    hide ApplyDelta, Fits;
    if b == [] {
      assert a + b == a;
    } else {
      var init := b[..|b| - 1];
      FitsConcat(lines, a, init);
      AfterConcat(lines, a, init);
      assert (a + b)[..|a + b| - 1] == a + init;
    }
  }

  lemma {:induction false} SplitNewLineFree(text: string)
    requires NewLineFree(text)
    ensures Split(text) == [text]
  {
    if text != "" {
      assert text[0] in text && forall c | c in text[1..] :: c in text;
      SplitNewLineFree(text[1..]);
      assert [text[0]] + text[1..] == text;
    }
  }

  lemma SplitNewLine(text: string)
    requires IsNewLine(text)
    ensures Split(text) == ["", ""]
  {
    assert Split("") == [""];
    assert text == "\r\n" ==> text[2..] == "";
    assert text != "\r\n" ==> text[1..] == "";
  }

  lemma InsertInLineEffect(lines: Lines, s: Position, text: string)
    requires ValidPosition(lines, s) && NewLineFree(text) && text != ""
    ensures InsertEffect(lines, s, text) == lines[s.row := lines[s.row][..s.column] + text + lines[s.row][s.column..]]
  {
    SplitNewLineFree(text);
  }

  lemma InsertNewLineEffect(lines: Lines, p: Position, text: string)
    requires p == Clip(lines, p) && IsNewLine(text)
    ensures InsertEffect(lines, p, text)
            == Splice(lines, p.row, 1, [Left(LineAt(lines, p.row), p.column), Right(LineAt(lines, p.row), p.column)])
  {
    SplitNewLine(text);
    var a, b := Left(LineAt(lines, p.row), p.column), Right(LineAt(lines, p.row), p.column);
    var broken := Opened(lines, p, ["", ""]);
    assert ["", ""][1..1] == [];
    assert a + "" == a;
    assert broken == Splice(lines, p.row, 1, [a, b]);
    assert "" + broken[p.row + 1] == broken[p.row + 1];
  }

  lemma SpliceChunks(lines: Lines, row: nat, head: Lines, tail: Lines)
    requires row <= |lines|
    ensures Splice(Splice(lines, row, 0, tail), row, 0, head) == Splice(lines, row, 0, head + tail)
  {
  }

  lemma LastChunkOfTail(n: nat)
    requires n > CHUNK
    ensures LastChunk(n - CHUNK) == LastChunk(n)
  {
  }

  lemma RemoveInLineEffect(lines: Lines, range: Range)
    requires range.start.row == range.end.row < |lines| && range.start.column <= range.end.column <= |lines[range.end.row]|
    ensures var line := lines[range.start.row];
            RemoveEffect(lines, range) == lines[range.start.row := line[..range.start.column] + line[range.end.column..]]
  {
    var line := lines[range.start.row];
    if range.start == range.end {
      assert line[..range.start.column] + line[range.end.column..] == line;
    }
  }

  lemma RemoveNewLineEffect(lines: Lines, row: nat)
    requires row + 1 < |lines|
    ensures RemoveEffect(lines, Range(Position(row, |lines[row]|), Position(row + 1, 0)))
            == lines[..row] + [lines[row] + lines[row + 1]] + lines[row + 2..]
  {
    assert Left(lines[row], |lines[row]|) == lines[row] && Right(lines[row + 1], 0) == lines[row + 1];
  }

  /** Replaying `log` turns one document into the other. */
  ghost predicate Emits(lines: Lines, log: seq<Delta>, lines': Lines) {
    After(lines, log) == lines'
  }

  lemma EmitsNone(lines: Lines)
    ensures Emits(lines, [], lines) && FitsAll(lines, [])
  {
  }

  lemma EmitsOne(lines: Lines, d: Delta)
    ensures Emits(lines, [d], ApplyDelta(lines, d))
    ensures Fits(lines, d) ==> FitsAll(lines, [d])
  {
    assert [d][..0] == [];
  }

  lemma EmitsOneIff(lines: Lines, d: Delta, lines': Lines)
    ensures Emits(lines, [d], lines') <==> ApplyDelta(lines, d) == lines'
    ensures Fits(lines, d) ==> FitsAll(lines, [d])
  {
    EmitsOne(lines, d);
  }

  lemma EmitsThen(lines: Lines, a: seq<Delta>, mid: Lines, b: seq<Delta>, lines': Lines)
    requires Emits(lines, a, mid) && Emits(mid, b, lines')
    ensures Emits(lines, a + b, lines')
    ensures FitsAll(lines, a) && FitsAll(mid, b) ==> FitsAll(lines, a + b)
  {
    AfterConcat(lines, a, b);
    if FitsAll(lines, a) && FitsAll(mid, b) {
      FitsConcat(lines, a, b);
    }
  }

  // Inserting and removing step by step -----------------------------------------------------------------

  function InLine(lines: Lines, p: Position, text: string): Lines {
    if text == "" then lines
    else Splice(lines, p.row, 1, [Left(LineAt(lines, p.row), p.column) + text + Right(LineAt(lines, p.row), p.column)])
  }

  function Broken(lines: Lines, p: Position): Lines {
    Splice(lines, p.row, 1, [Left(LineAt(lines, p.row), p.column), Right(LineAt(lines, p.row), p.column)])
  }

  lemma InsertOnePart(lines: Lines, position: Position, text: string)
    requires text != "" && |Split(text)| == 1
    ensures var p := Clip(lines, position);
            && Split(text)[0] == text
            && InsertEffect(lines, position, text) == InLine(lines, p, text)
            && InsertEnd(lines, position, text) == Position(p.row, p.column + |text|)
  {
    SplitOnce(text);
  }

  lemma {:induction false} SplitOnce(text: string)
    requires |Split(text)| == 1
    ensures Split(text) == [text]
  {
    if text != "" {
      SplitOnce(text[1..]);
      assert [text[0]] + text[1..] == text;
    }
  }

  lemma InsertManyParts(lines: Lines, position: Position, text: string, l1: Lines, l2: Lines, l3: Lines, l4: Lines)
    requires text != "" && |Split(text)| > 1
    requires var p, parts := Clip(lines, position), Split(text);
             var end := Position(EndRow(p, parts), 0);
             && l1 == InLine(lines, p, parts[0])
             && l2 == Broken(l1, Position(p.row, p.column + |parts[0]|))
             && l3 == Splice(l2, p.row + 1, 0, parts[1..|parts| - 1])
             && l4 == InLine(l3, end, parts[|parts| - 1])
    ensures l4 == InsertEffect(lines, position, text)
    ensures InsertEnd(lines, position, text) == Position(EndRow(Clip(lines, position), Split(text)), |Split(text)[|Split(text)| - 1]|)
  {
    hide Split, Left, Right, LineAt, Broken, InLine, LastChunk, InsertEffect;
    ManyPartsEffect(lines, position, text);
    var p, parts := Clip(lines, position), Split(text);
    BrokenAfterFirst(lines, p, parts[0], l1, l2);
    var a := Left(LineAt(lines, p.row), p.column) + parts[0];
    MiddleIn(lines, p.row, a, parts[1..|parts| - 1], Right(LineAt(lines, p.row), p.column));
    assert l3 == Opened(lines, p, parts);
    LastIn(l3, EndRow(p, parts), parts[|parts| - 1]);
  }

  lemma ManyPartsEffect(lines: Lines, position: Position, text: string)
    requires text != "" && |Split(text)| > 1
    ensures var p, parts := Clip(lines, position), Split(text);
            var broken, row := Opened(lines, p, parts), EndRow(p, parts);
            && row < |broken|
            && InsertEffect(lines, position, text) == broken[row := parts[|parts| - 1] + broken[row]]
  {
    hide Split, Left, Right, LineAt, LastChunk;
  }

  lemma MiddleIn(lines: Lines, row: nat, a: string, middle: Lines, b: string)
    requires row <= |lines|
    ensures Splice(Splice(lines, row, 1, [a, b]), row + 1, 0, middle) == Splice(lines, row, 1, [a] + middle + [b])
  {
  }

  lemma LastIn(lines: Lines, row: nat, last: string)
    requires row < |lines|
    ensures InLine(lines, Position(row, 0), last) == lines[row := last + lines[row]]
  {
    if last == "" {
      assert last + lines[row] == lines[row];
    } else {
      assert Left(lines[row], 0) + last + Right(lines[row], 0) == last + lines[row];
    }
  }

  lemma BrokenAfterFirst(lines: Lines, p: Position, first: string, l1: Lines, l2: Lines)
    requires p == Clip(lines, p)
    requires l1 == InLine(lines, p, first) && l2 == Broken(l1, Position(p.row, p.column + |first|))
    ensures l2 == Splice(lines, p.row, 1, [Left(LineAt(lines, p.row), p.column) + first, Right(LineAt(lines, p.row), p.column)])
    ensures Position(p.row, p.column + |first|) == Clip(l1, Position(p.row, p.column + |first|))
    ensures ValidPosition(lines, p) ==> ValidPosition(l1, Position(p.row, p.column + |first|))
  {
    var line := LineAt(lines, p.row);
    var a, b := Left(line, p.column), Right(line, p.column);
    if first == "" {
      assert a + first == a;
    } else {
      assert LineAt(l1, p.row) == a + first + b;
      assert Left(a + first + b, p.column + |first|) == a + first;
      assert Right(a + first + b, p.column + |first|) == b;
    }
  }

  /** Removing across rows when the first row goes entirely: cut the last row, drop the rows before it. */
  lemma RemoveFromLineStart(lines: Lines, s: Position, e: Position, l1: Lines, l2: Lines)
    requires s.row < e.row < |lines| && s.column == 0
    requires l1 == Cut(lines, e.row, 0, e.column) && l2 == Splice(l1, s.row, e.row - s.row, [])
    ensures l2 == RemoveEffect(lines, Range(s, e))
  {
    hide Cut, RemoveEffect;
    CutRow(lines, e.row, e.column);
    AcrossRows(lines, s, e);
    var rest := Right(lines[e.row], e.column);
    assert Left(lines[s.row], 0) + rest == rest;
    hide Left, Right;
    assert l2 == lines[..s.row] + [rest] + lines[e.row + 1..];
  }

  lemma AcrossRows(lines: Lines, s: Position, e: Position)
    requires s.row < e.row < |lines|
    ensures RemoveEffect(lines, Range(s, e))
            == lines[..s.row] + [Left(lines[s.row], s.column) + Right(lines[e.row], e.column)] + lines[e.row + 1..]
  {
    hide Left, Right;
  }

  lemma CutRow(lines: Lines, row: nat, column: nat)
    requires row < |lines|
    ensures Cut(lines, row, 0, column) == lines[row := Right(lines[row], column)]
  {
    assert Left(lines[row], 0) + Right(lines[row], column) == Right(lines[row], column);
    assert Right(lines[row], 0) == lines[row];
  }

  /** Otherwise the first row is cut as well and joined with what is left of the last. */
  lemma RemoveFromMidLine(lines: Lines, s: Position, e: Position, l1: Lines, l2: Lines, l3: Lines, l4: Lines)
    requires s.row < e.row < |lines|
    requires l1 == Cut(lines, e.row, 0, e.column)
    requires l2 == Splice(l1, s.row + 1, e.row - (s.row + 1), [])
    requires l3 == Cut(l2, s.row, s.column, |LineAt(l2, s.row)|)
    requires l4 == Joined(l3, s.row)
    ensures s.row + 1 < |l2| && |l3| == |l2|
    ensures l4 == RemoveEffect(lines, Range(s, e))
  {
    hide Cut, Left, Right, RemoveEffect;
    CutRow(lines, e.row, e.column);
    AcrossRows(lines, s, e);
    var rest := Right(lines[e.row], e.column);
    assert l2 == lines[..s.row + 1] + [rest] + lines[e.row + 1..];
    CutTail(l2, s.row, s.column);
    assert l2[s.row] == lines[s.row] && l2[s.row + 1] == rest;
    var left := Left(lines[s.row], s.column);
    JoinedRows(l2, s.row, left, rest);
    assert l2[..s.row] == lines[..s.row] && l2[s.row + 2..] == lines[e.row + 1..];
  }

  lemma JoinedRows(lines: Lines, row: nat, left: string, right: string)
    requires row + 1 < |lines| && lines[row + 1] == right
    ensures Joined(lines[row := left], row) == lines[..row] + [left + right] + lines[row + 2..]
  {
  }

  lemma CutTail(lines: Lines, row: nat, column: nat)
    requires row < |lines|
    ensures Cut(lines, row, column, |lines[row]|) == lines[row := Left(lines[row], column)]
  {
    assert Left(lines[row], column) + Right(lines[row], |lines[row]|) == Left(lines[row], column);
    assert Left(lines[row], |lines[row]|) == lines[row];
  }

  // The deltas of the primitive edits -------------------------------------------------------------------

  lemma InsertLinesDelta(lines: Lines, row: nat, ins: Lines)
    requires 0 < |ins| <= CHUNK
    ensures var d := InsertLines(Range(Position(row, 0), Position(row + |ins|, 0)), ins);
            && ApplyDelta(lines, d) == Splice(lines, row, 0, ins)
            && (row < |lines| ==> Fits(lines, d))
  {
  }

  /** Whether a row can be inserted into, so that a replica inserts into the same. */
  predicate InDocument(lines: Lines, p: Position) {
    Clip(lines, p).row == p.row
  }

  /** Text put into one line replays to the same exactly when it has no line break and the row is there. */
  lemma InsertTextDelta(lines: Lines, p: Position, text: string)
    requires text != "" && p.row <= |lines|
    ensures var d := InsertText(Range(p, Position(p.row, p.column + |text|)), text);
            && (ApplyDelta(lines, d) == InLine(lines, p, text) <==> NewLineFree(text) && InDocument(lines, p))
            && (NewLineFree(text) && ValidPosition(lines, p) ==> Fits(lines, d))
  {
    if NewLineFree(text) {
      SplitNewLineFree(text);
      if !InDocument(lines, p) {
        assert |InLine(lines, p, text)| == |lines| + 1;
      }
    } else {
      BreaksInLine(lines, p, text);
    }
  }

  lemma BreaksInLine(lines: Lines, p: Position, text: string)
    requires text != "" && p.row <= |lines| && !NewLineFree(text)
    ensures InsertEffect(lines, p, text) != InLine(lines, p, text)
  {
    var q, parts := Clip(lines, p), Split(text);
    if |parts| == 1 {
      SplitOnce(text);
    } else {
      ManyPartsEffect(lines, p, text);
      hide Split, Left, Right, LastChunk;
      assert |Opened(lines, q, parts)| == (if lines == [] then 1 else |lines|) + |parts| - 1;
      if p.row == |lines| > 0 && |parts| == 2 {
        LastPartDiffers(lines, p, text);
      }
    }
  }

  /** Past the last line, the line that is appended is not the one a replica appends. */
  lemma LastPartDiffers(lines: Lines, p: Position, text: string)
    requires p.row == |lines| > 0 && |Split(text)| == 2 && !NewLineFree(text)
    ensures InsertEffect(lines, p, text) != InLine(lines, p, text)
  {
    ManyPartsEffect(lines, p, text);
    var q, parts, n := Clip(lines, p), Split(text), |lines|;
    hide Split, InsertEffect;
    assert InLine(lines, p, text)[n] == text by {
      assert Left("", p.column) + text + Right("", p.column) == text;
    }
    assert Opened(lines, q, parts)[n] == "" by {
      assert Right(lines[n - 1], |lines[n - 1]|) == "";
    }
    assert EndRow(q, parts) == n;
    assert InsertEffect(lines, p, text)[n] == parts[1] + "" == parts[1];
    assert parts[1] in parts;
  }

  lemma InsertNewLineDelta(lines: Lines, p: Position, nl: string)
    requires p == Clip(lines, p) && IsNewLine(nl)
    ensures var d := InsertText(Range(p, Position(p.row + 1, 0)), nl);
            && ApplyDelta(lines, d) == Splice(lines, p.row, 1, [Left(LineAt(lines, p.row), p.column), Right(LineAt(lines, p.row), p.column)])
            && (ValidPosition(lines, p) ==> Fits(lines, d))
  {
    InsertNewLineEffect(lines, p, nl);
  }

  lemma RemoveLinesDelta(lines: Lines, first: nat, end: nat, nl: string)
    ensures var d := RemoveLines(Range(Position(first, 0), Position(end, 0)), nl, Taken(lines, first, end));
            && ApplyDelta(lines, d) == Splice(lines, first, Span(first, end), [])
            && (first < end < |lines| ==> Fits(lines, d))
  {
  }

  /** The lines that `splice` takes out. */
  function Taken(lines: Lines, first: nat, end: nat): Lines {
    if first <= end then lines[Min(first, |lines|)..Min(end, |lines|)] else []
  }

  /** JavaScript's `substring`: bounds are clamped, and swapped when reversed. */
  function Substring(s: string, a: nat, b: nat): string {
    var lo, hi := Min(Min(a, b), |s|), Min(if a <= b then b else a, |s|);
    s[lo..hi]
  }

  lemma CutDelta(lines: Lines, row: nat, a: nat, b: nat)
    requires a != b
    ensures var d := RemoveText(Range(Position(row, a), Position(row, b)), Substring(LineAt(lines, row), a, b));
            && (row < |lines| ==> ApplyDelta(lines, d) == Cut(lines, row, a, b))
            && (row >= |lines| ==> ApplyDelta(lines, d) == lines && |Cut(lines, row, a, b)| == |lines| + 1)
            && (row < |lines| && a < b <= |lines[row]| && NewLineFree(lines[row]) ==> Fits(lines, d))
  {
  }

  lemma JoinDelta(lines: Lines, row: nat, nl: string)
    requires IsNewLine(nl)
    ensures var d := RemoveText(Range(Position(row, |LineAt(lines, row)|), Position(row + 1, 0)), nl);
            && (row < |lines| ==> ApplyDelta(lines, d) == Joined(lines, row))
            && (row >= |lines| ==> ApplyDelta(lines, d) == lines && |Joined(lines, row)| == |lines| + 1)
            && (row + 1 < |lines| ==> Fits(lines, d))
  {
    if row + 1 < |lines| {
      RemoveNewLineEffect(lines, row);
    } else if row < |lines| {
      assert lines[row] + "" == lines[row];
      assert Joined(lines, row) == lines;
    }
  }

  /** Undoing a delta on the lines it produced gives back the lines it was emitted for. */
  lemma RevertUndoes(lines: Lines, d: Delta)
    requires Fits(lines, d)
    ensures RevertDelta(ApplyDelta(lines, d), d) == lines
  {
    hide InsertEffect, RemoveEffect, InsertLinesEffect, ApplyDelta, RevertDelta;
    match d
    case InsertLines(_, _) => RevertInsertLines(lines, d);
    case InsertText(_, text) =>
      NewLineSpansRows(lines, d);
      if IsNewLine(text) {
        RevertNewLine(lines, d);
      } else {
        RevertInLine(lines, d);
      }
    case RemoveLines(_, _, _) => RevertRemoveLines(lines, d);
    case RemoveText(_, text) =>
      NewLineSpansRows(lines, d);
      if IsNewLine(text) {
        RevertJoin(lines, d);
      } else {
        RevertCut(lines, d);
      }
  }

  lemma RevertInsertLines(lines: Lines, d: Delta)
    requires Fits(lines, d) && d.InsertLines?
    ensures RevertDelta(ApplyDelta(lines, d), d) == lines
  {
    hide InsertLinesEffect;
    ChunksMakeWhole(lines, d.range.start.row, d.lines);
  }

  lemma RevertRemoveLines(lines: Lines, d: Delta)
    requires Fits(lines, d) && d.RemoveLines?
    ensures RevertDelta(ApplyDelta(lines, d), d) == lines
  {
    hide InsertLinesEffect;
    ChunksMakeWhole(ApplyDelta(lines, d), d.range.start.row, d.lines);
  }

  /** Undoing a log that describes edits of these lines, on the lines it led to, gives them back. */
  lemma {:induction false} RevertedUndoes(lines: Lines, log: seq<Delta>)
    requires FitsAll(lines, log)
    ensures Reverted(After(lines, log), log) == lines
    decreases |log|
  {
    hide ApplyDelta, RevertDelta, Fits;
    if log != [] {
      var init := log[..|log| - 1];
      RevertUndoes(After(lines, init), log[|log| - 1]);
      RevertedUndoes(lines, init);
    }
  }

  lemma ClipInside(lines: Lines, p: Position)
    requires p.row < |lines|
    ensures Clip(lines, p) == p
  {
  }

  lemma RevertNewLine(lines: Lines, d: Delta)
    requires Fits(lines, d) && d.InsertText? && IsNewLine(d.text) && d.range.end.row == d.range.start.row + 1
    ensures RevertDelta(ApplyDelta(lines, d), d) == lines
  {
    var s := d.range.start;
    hide InsertEffect, RemoveEffect, Split, Clip;
    var line := lines[s.row];
    var broken := lines[..s.row] + [line[..s.column], line[s.column..]] + lines[s.row + 1..];
    ClipInside(lines, s);
    InsertNewLineEffect(lines, s, d.text);
    assert ApplyDelta(lines, d) == broken;
    RemoveNewLineEffect(broken, s.row);
    assert line[..s.column] + line[s.column..] == line;
  }

  lemma RevertInLine(lines: Lines, d: Delta)
    requires Fits(lines, d) && d.InsertText? && !IsNewLine(d.text)
    ensures RevertDelta(ApplyDelta(lines, d), d) == lines
  {
    var s, e := d.range.start, d.range.end;
    var line := lines[s.row];
    var longer := line[..s.column] + d.text + line[s.column..];
    InsertInLineEffect(lines, s, d.text);
    RemoveInLineEffect(lines[s.row := longer], d.range);
    assert longer[..s.column] + longer[e.column..] == line;
  }

  lemma RevertJoin(lines: Lines, d: Delta)
    requires Fits(lines, d) && d.RemoveText? && IsNewLine(d.text) && d.range.end.row == d.range.start.row + 1
    ensures RevertDelta(ApplyDelta(lines, d), d) == lines
  {
    var s := d.range.start;
    hide InsertEffect, RemoveEffect, Split, Clip;
    var joined := lines[s.row] + lines[s.row + 1];
    var shorter := lines[..s.row] + [joined] + lines[s.row + 2..];
    RemoveNewLineEffect(lines, s.row);
    assert ApplyDelta(lines, d) == shorter;
    ClipInside(shorter, s);
    InsertNewLineEffect(shorter, s, d.text);
    assert joined[..s.column] == lines[s.row] && joined[s.column..] == lines[s.row + 1];
  }

  lemma RevertCut(lines: Lines, d: Delta)
    requires Fits(lines, d) && d.RemoveText? && !IsNewLine(d.text)
    ensures RevertDelta(ApplyDelta(lines, d), d) == lines
  {
    var s, e := d.range.start, d.range.end;
    var line := lines[s.row];
    var shorter := line[..s.column] + line[e.column..];
    RemoveInLineEffect(lines, d.range);
    InsertInLineEffect(lines[s.row := shorter], s, d.text);
    assert shorter[..s.column] + d.text + shorter[s.column..] == line;
  }

  /** The newline variant of a text delta is the one that spans two rows. */
  lemma NewLineSpansRows(lines: Lines, d: Delta)
    requires Fits(lines, d) && (d.InsertText? || d.RemoveText?)
    ensures IsNewLine(d.text) <==> d.range.end.row == d.range.start.row + 1
  {
    if IsNewLine(d.text) {
      assert d.text[0] in d.text;
    }
  }
}
