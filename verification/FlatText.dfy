/**
 The document as one string: lines joined by a newline, positions as offsets into it, and edits of
 lines as edits of the string.
 */
module FlatText {
  import opened DocText

  /** Every line followed by a newline. */
  function Terminated(lines: Lines, nl: string): string {
    if lines == [] then "" else Terminated(lines[..|lines| - 1], nl) + lines[|lines| - 1] + nl
  }

  /** The lines joined by a newline. */
  function Flat(lines: Lines, nl: string): string {
    if lines == [] then "" else Terminated(lines[..|lines| - 1], nl) + lines[|lines| - 1]
  }

  /** The offset of a position, newlines being `k` characters long. */
  function Offset(lines: Lines, p: Position, k: nat): nat {
    RowStart(lines, p.row, k) + p.column
  }

  function RowStart(lines: Lines, row: nat, k: nat): nat {
    if row == 0 then 0 else RowStart(lines, row - 1, k) + |LineAt(lines, row - 1)| + k
  }

  lemma {:induction false} TerminatedConcat(a: Lines, b: Lines, nl: string)
    ensures Terminated(a + b, nl) == Terminated(a, nl) + Terminated(b, nl)
  {
    if b == [] {
      assert a + b == a;
    } else {
      var init, last := b[..|b| - 1], b[|b| - 1];
      TerminatedConcat(a, init, nl);
      assert (a + b)[..|a + b| - 1] == a + init;
      assert (Terminated(a, nl) + Terminated(init, nl)) + last + nl == Terminated(a, nl) + (Terminated(init, nl) + last + nl);
    }
  }

  lemma TerminatedOne(line: string, nl: string)
    ensures Terminated([line], nl) == line + nl
  {
    assert [line][..0] == [];
    assert "" + line + nl == line + nl;
  }

  lemma FlatTerminated(lines: Lines, nl: string)
    requires lines != []
    ensures Terminated(lines, nl) == Flat(lines, nl) + nl
  {
  }

  lemma {:induction false} RowStartIsPrefix(lines: Lines, row: nat, nl: string)
    requires row <= |lines|
    ensures RowStart(lines, row, |nl|) == |Terminated(lines[..row], nl)|
  {
    if row > 0 {
      RowStartIsPrefix(lines, row - 1, nl);
      assert lines[..row][..row - 1] == lines[..row - 1];
    } else {
      assert lines[..0] == [];
    }
  }

  lemma {:induction false} RowStartAgree(a: Lines, b: Lines, row: nat, k: nat)
    requires row <= |a| && row <= |b| && a[..row] == b[..row]
    ensures RowStart(a, row, k) == RowStart(b, row, k)
  {
    if row > 0 {
      assert a[row - 1] == a[..row][row - 1] == b[..row][row - 1] == b[row - 1];
      assert a[..row - 1] == a[..row][..row - 1] == b[..row][..row - 1] == b[..row - 1];
      RowStartAgree(a, b, row - 1, k);
    }
  }

  /** The string around a row. */
  lemma FlatAround(lines: Lines, row: nat, nl: string)
    requires row < |lines|
    ensures Terminated(lines, nl) == Terminated(lines[..row], nl) + lines[row] + nl + Terminated(lines[row + 1..], nl)
  {
    var a, b := lines[..row], lines[row + 1..];
    assert lines == a + [lines[row]] + b;
    TerminatedConcat(a + [lines[row]], b, nl);
    TerminatedConcat(a, [lines[row]], nl);
    TerminatedOne(lines[row], nl);
    assert Terminated(a, nl) + (lines[row] + nl) + Terminated(b, nl) == Terminated(a, nl) + lines[row] + nl + Terminated(b, nl);
  }

  /** A string with the characters from `o` to `o + n` replaced. */
  function Replaced(s: string, o: nat, n: nat, ins: string): string
    requires o + n <= |s|
  {
    s[..o] + ins + s[o + n..]
  }

  /**
   Replacing the lines between two positions by given lines, glued to what is left at both ends, is
   replacing the characters between the two offsets.
   */
  lemma SpliceIsReplace(lines: Lines, s: Position, e: Position, ins: Lines, lines': Lines, nl: string)
    requires ValidPosition(lines, s) && ValidPosition(lines, e)
    requires s.row < e.row || (s.row == e.row && s.column <= e.column)
    requires ins != []
    requires lines' == lines[..s.row] + Glued(lines[s.row][..s.column], ins, lines[e.row][e.column..]) + lines[e.row + 1..]
    ensures var o, o' := Offset(lines, s, |nl|), Offset(lines, e, |nl|);
            && o <= o' <= |Flat(lines, nl)|
            && Flat(lines', nl) == Replaced(Flat(lines, nl), o, o' - o, Flat(ins, nl))
  {
    hide Terminated, Flat, Glued;
    var o, o' := Offset(lines, s, |nl|), Offset(lines, e, |nl|);
    SplitAt(lines, s, nl);
    SplitAt(lines, e, nl);
    OffsetsOrdered(lines, s, e, |nl|);
    var left, right := lines[s.row][..s.column], lines[e.row][e.column..];
    var before, after := Terminated(lines[..s.row], nl), Terminated(lines[e.row + 1..], nl);
    GluedText(left, ins, right, nl);
    var g := Glued(left, ins, right);
    TerminatedConcat(lines[..s.row] + g, lines[e.row + 1..], nl);
    TerminatedConcat(lines[..s.row], g, nl);
    Regroup(before, left, Flat(ins, nl), right, nl, after);
    FlatTerminated(lines, nl);
    FlatTerminated(lines', nl);
    DropNewLine(Flat(lines, nl), Flat(lines', nl), o, o', Flat(ins, nl), nl);
  }

  lemma Regroup(before: string, left: string, x: string, right: string, nl: string, after: string)
    ensures before + (left + x + right + nl) + after == (before + left) + x + (right + nl + after)
  {
  }

  function Glued(left: string, ins: Lines, right: string): (glued: Lines)
    requires ins != []
    ensures glued != []
  {
    if |ins| == 1 then [left + ins[0] + right]
    else [left + ins[0]] + ins[1..|ins| - 1] + [ins[|ins| - 1] + right]
  }

  lemma GluedText(left: string, ins: Lines, right: string, nl: string)
    requires ins != []
    ensures Terminated(Glued(left, ins, right), nl) == left + Flat(ins, nl) + right + nl
  {
    var g := Glued(left, ins, right);
    if |ins| == 1 {
      TerminatedOne(left + ins[0] + right, nl);
      assert ins[..0] == [];
      assert Flat(ins, nl) == "" + ins[0] == ins[0];
    } else {
      var mid, last := ins[1..|ins| - 1], ins[|ins| - 1];
      TerminatedConcat([left + ins[0]] + mid, [last + right], nl);
      TerminatedConcat([left + ins[0]], mid, nl);
      TerminatedOne(left + ins[0], nl);
      TerminatedOne(last + right, nl);
      assert ins[..|ins| - 1] == [ins[0]] + mid;
      TerminatedConcat([ins[0]], mid, nl);
      TerminatedOne(ins[0], nl);
      RegroupGlued(left, ins[0], nl, Terminated(mid, nl), last, right);
    }
  }

  lemma RegroupGlued(left: string, first: string, nl: string, mid: string, last: string, right: string)
    ensures (left + first + nl) + mid + (last + right + nl) == left + ((first + nl + mid) + last) + right + nl
  {
  }

  /** A valid position cuts the string at its offset. */
  lemma SplitAt(lines: Lines, p: Position, nl: string)
    requires ValidPosition(lines, p)
    ensures var o, t := Offset(lines, p, |nl|), Terminated(lines, nl);
            && o + |nl| <= |t|
            && t[..o] == Terminated(lines[..p.row], nl) + lines[p.row][..p.column]
            && t[o..] == lines[p.row][p.column..] + nl + Terminated(lines[p.row + 1..], nl)
  {
    hide Terminated, RowStart;
    FlatAround(lines, p.row, nl);
    RowStartIsPrefix(lines, p.row, nl);
    var line := lines[p.row];
    assert line == line[..p.column] + line[p.column..];
    var a, b := Terminated(lines[..p.row], nl) + line[..p.column], line[p.column..] + nl + Terminated(lines[p.row + 1..], nl);
    RegroupCut(Terminated(lines[..p.row], nl), line[..p.column], line[p.column..], nl, Terminated(lines[p.row + 1..], nl));
    CutString(Terminated(lines, nl), a, b);
  }

  lemma RegroupCut(a: string, b: string, c: string, nl: string, d: string)
    ensures a + (b + c) + nl + d == (a + b) + (c + nl + d)
  {
  }

  lemma CutString(t: string, a: string, b: string)
    requires t == a + b
    ensures t[..|a|] == a && t[|a|..] == b
  {
  }

  lemma {:induction false} RowStartGrows(lines: Lines, a: nat, b: nat, k: nat)
    requires a < b
    ensures RowStart(lines, a, k) + |LineAt(lines, a)| + k <= RowStart(lines, b, k)
    decreases b
  {
    if a < b - 1 {
      RowStartGrows(lines, a, b - 1, k);
    }
  }

  lemma OffsetsOrdered(lines: Lines, s: Position, e: Position, k: nat)
    requires ValidPosition(lines, s) && ValidPosition(lines, e)
    requires s.row < e.row || (s.row == e.row && s.column <= e.column)
    ensures Offset(lines, s, k) <= Offset(lines, e, k)
  {
    if s.row < e.row {
      RowStartGrows(lines, s.row, e.row, k);
    }
  }

  lemma DropNewLine(f: string, f': string, o: nat, o': nat, ins: string, nl: string)
    requires o <= o' <= |f|
    requires f' + nl == (f + nl)[..o] + ins + (f + nl)[o'..]
    ensures f' == f[..o] + ins + f[o'..]
  {
    assert (f + nl)[..o] == f[..o];
    assert (f + nl)[o'..] == f[o'..] + nl;
    assert f' + nl == (f[..o] + ins + f[o'..]) + nl;
    assert f' == (f' + nl)[..|f'|];
    assert f[..o] + ins + f[o'..] == (f[..o] + ins + f[o'..] + nl)[..|f'|];
  }

  // Inserting and removing ------------------------------------------------------------------------------

  /** A text with each of its line breaks written as `nl`. */
  function WithNewLines(text: string, nl: string): string {
    if text == "" then ""
    else if |text| > 1 && text[0] == '\r' && text[1] == '\n' then nl + WithNewLines(text[2..], nl)
    else if text[0] == '\r' || text[0] == '\n' then nl + WithNewLines(text[1..], nl)
    else [text[0]] + WithNewLines(text[1..], nl)
  }

  lemma FlatCons(line: string, rest: Lines, nl: string)
    requires rest != []
    ensures Flat([line] + rest, nl) == line + nl + Flat(rest, nl)
  {
    var all := [line] + rest;
    assert all[..|all| - 1] == [line] + rest[..|rest| - 1];
    hide Terminated;
    TerminatedConcat([line], rest[..|rest| - 1], nl);
    TerminatedOne(line, nl);
    var t, last := Terminated(rest[..|rest| - 1], nl), rest[|rest| - 1];
    assert (line + nl + t) + last == line + nl + (t + last);
  }

  lemma FlatOne(line: string, nl: string)
    ensures Flat([line], nl) == line
  {
    assert [line][..0] == [];
  }

  /** Splitting a text and joining the parts only rewrites its line breaks. */
  lemma {:induction false} SplitJoins(text: string, nl: string)
    ensures Flat(Split(text), nl) == WithNewLines(text, nl)
  {
    hide Flat;
    if text == "" {
      FlatOne("", nl);
    } else if |text| > 1 && text[0] == '\r' && text[1] == '\n' {
      SplitJoins(text[2..], nl);
      FlatCons("", Split(text[2..]), nl);
      assert "" + nl == nl;
    } else if text[0] == '\r' || text[0] == '\n' {
      SplitJoins(text[1..], nl);
      FlatCons("", Split(text[1..]), nl);
      assert "" + nl == nl;
    } else {
      SplitJoins(text[1..], nl);
      FlatLonger([text[0]], Split(text[1..]), nl);
    }
  }

  lemma FlatLonger(c: string, parts: Lines, nl: string)
    requires parts != []
    ensures Flat([c + parts[0]] + parts[1..], nl) == c + Flat(parts, nl)
  {
    hide Flat;
    if |parts| == 1 {
      assert parts == [parts[0]] && [c + parts[0]] + parts[1..] == [c + parts[0]];
      FlatOne(parts[0], nl);
      FlatOne(c + parts[0], nl);
    } else {
      assert parts == [parts[0]] + parts[1..];
      FlatCons(parts[0], parts[1..], nl);
      FlatCons(c + parts[0], parts[1..], nl);
      assert c + (parts[0] + nl + Flat(parts[1..], nl)) == (c + parts[0]) + nl + Flat(parts[1..], nl);
    }
  }

  /** The lines an insertion should produce. */
  function Intended(lines: Lines, p: Position, parts: Lines): Lines
    requires p.row < |lines| && p.column <= |lines[p.row]| && parts != []
  {
    lines[..p.row] + Glued(lines[p.row][..p.column], parts, lines[p.row][p.column..]) + lines[p.row + 1..]
  }

  /**
   Inserting yields the intended lines exactly when the text has at most 0xFFFF lines between its first
   and last, or ends in a line break: past that bound the last line is put into the wrong row.
   */
  lemma InsertsIntendedIff(lines: Lines, p: Position, text: string)
    requires ValidPosition(lines, p) && text != ""
    ensures var parts := Split(text);
            InsertEffect(lines, p, text) == Intended(lines, p, parts) <==>
            (|parts| <= 0x10001 || parts[|parts| - 1] == "")
  {
    hide Split, Opened, Intended, InsertEffect;
    if |Split(text)| == 1 {
      OnePartIntended(lines, p, text);
    } else {
      var parts := Split(text);
      ManyPartsEffect(lines, p, text);
      IntendedIsOpened(lines, p, parts);
      ChunkRow(|parts| - 2);
      PutElsewhere(Opened(lines, p, parts), EndRow(p, parts), p.row + |parts| - 1, parts[|parts| - 1]);
    }
  }

  lemma OnePartIntended(lines: Lines, p: Position, text: string)
    requires ValidPosition(lines, p) && text != "" && |Split(text)| == 1
    ensures InsertEffect(lines, p, text) == Intended(lines, p, Split(text))
  {
    hide Split, InsertEffect;
    InsertOnePart(lines, p, text);
  }

  /** The last part belongs before what was right of the position. */
  lemma IntendedIsOpened(lines: Lines, p: Position, parts: Lines)
    requires ValidPosition(lines, p) && |parts| >= 2
    ensures var broken, row := Opened(lines, p, parts), p.row + |parts| - 1;
            row < |broken| && Intended(lines, p, parts) == broken[row := parts[|parts| - 1] + broken[row]]
  {
    var left, right := lines[p.row][..p.column], lines[p.row][p.column..];
    var broken, row := Opened(lines, p, parts), p.row + |parts| - 1;
    assert broken == lines[..p.row] + [left + parts[0]] + parts[1..|parts| - 1] + [right] + lines[p.row + 1..];
    assert broken[row] == right;
  }

  lemma ChunkRow(n: nat)
    ensures LastChunk(n) == n <==> n <= CHUNK
  {
  }

  lemma PutElsewhere(lines: Lines, i: nat, j: nat, last: string)
    requires i <= j < |lines|
    ensures lines[i := last + lines[i]] == lines[j := last + lines[j]] <==> i == j || last == ""
  {
    if last == "" {
      assert last + lines[i] == lines[i] && last + lines[j] == lines[j];
    } else if i != j {
      assert |lines[i := last + lines[i]][i]| != |lines[j := last + lines[j]][i]|;
    }
  }

  /** As many line breaks. */
  function Breaks(n: nat): string {
    if n == 0 then "" else "\n" + Breaks(n - 1)
  }

  lemma {:induction false} BreaksSplit(n: nat)
    ensures var parts := Split(Breaks(n) + "x"); |parts| == n + 1 && parts[n] == "x"
    decreases n
  {
    var text := Breaks(n) + "x";
    if n == 0 {
      assert text == "x" && text[1..] == "";
      assert Split("") == [""];
    } else {
      BreaksSplit(n - 1);
      assert text[0] == '\n' && text[1..] == Breaks(n - 1) + "x";
    }
  }

  /** So many lines at once, with one more letter, into an empty document: the letter goes astray. */
  lemma LongInsertionGoesAstray()
    ensures var text := Breaks(0x10001) + "x";
            text != "" && InsertEffect([""], Position(0, 0), text) != Intended([""], Position(0, 0), Split(text))
  {
    hide Split, Breaks, InsertEffect, Intended;
    BreaksSplit(0x10001);
    InsertsIntendedIff([""], Position(0, 0), Breaks(0x10001) + "x");
  }

  /** Inserting text is inserting it, with its line breaks rewritten, at the offset of the position. */
  lemma InsertIsReplace(lines: Lines, p: Position, text: string, nl: string)
    requires ValidPosition(lines, p) && text != ""
    requires |Split(text)| <= 0x10001 || Split(text)[|Split(text)| - 1] == ""
    ensures var o := Offset(lines, p, |nl|);
            && o <= |Flat(lines, nl)|
            && Flat(InsertEffect(lines, p, text), nl) == Replaced(Flat(lines, nl), o, 0, WithNewLines(text, nl))
  {
    hide Split, InsertEffect, Flat, Offset, WithNewLines;
    InsertsIntendedIff(lines, p, text);
    SpliceIsReplace(lines, p, p, Split(text), InsertEffect(lines, p, text), nl);
    SplitJoins(text, nl);
  }

  /** The reported end is where the inserted text ends, exactly up to the chunk bound. */
  lemma InsertEndIff(lines: Lines, p: Position, text: string, nl: string)
    requires ValidPosition(lines, p) && text != "" && nl != ""
    ensures var end, parts, lines' := InsertEnd(lines, p, text), Split(text), InsertEffect(lines, p, text);
            (ValidPosition(lines', end) && Offset(lines', end, |nl|) == Offset(lines, p, |nl|) + |WithNewLines(text, nl)|)
            <==> |parts| <= 0x10001
  {
    hide Split, InsertEffect, WithNewLines, Terminated, Flat, Opened, Splice, Offset;
    var end, parts, lines' := InsertEnd(lines, p, text), Split(text), InsertEffect(lines, p, text);
    SplitJoins(text, nl);
    if |parts| == 1 {
      InsertOnePart(lines, p, text);
      FlatOne(text, nl);
      assert parts == [parts[0]];
      OneLineEnd(lines, p, text, lines', |nl|);
    } else {
      ManyPartsEffect(lines, p, text);
      ChunkRow(|parts| - 2);
      EndOffset(lines, p, parts, lines', nl);
      PartsLength(parts, nl);
      var middle := parts[1..|parts| - 1];
      var n := LastChunk(|middle|);
      assert middle == middle[..n] + middle[n..];
      TerminatedConcat(middle[..n], middle[n..], nl);
      if n < |middle| {
        FlatTerminated(middle[n..], nl);
      } else {
        assert middle[..n] == middle;
      }
    }
  }

  lemma OneLineEnd(lines: Lines, p: Position, text: string, lines': Lines, k: nat)
    requires ValidPosition(lines, p) && lines' == InLine(lines, p, text)
    ensures var end := Position(p.row, p.column + |text|);
            ValidPosition(lines', end) && Offset(lines', end, k) == Offset(lines, p, k) + |text|
  {
    RowStartAgree(lines, lines', p.row, k);
  }

  /** The offset of the reported end, counting only the middle lines before it. */
  lemma EndOffset(lines: Lines, p: Position, parts: Lines, lines': Lines, nl: string)
    requires ValidPosition(lines, p) && |parts| >= 2
    requires var broken, row := Opened(lines, p, parts), EndRow(p, parts);
             row < |broken| && lines' == broken[row := parts[|parts| - 1] + broken[row]]
    ensures var end := Position(EndRow(p, parts), |parts[|parts| - 1]|);
            && ValidPosition(lines', end)
            && Offset(lines', end, |nl|) == Offset(lines, p, |nl|) + |parts[0]| + |nl|
                 + |Terminated(parts[1..|parts| - 1][..LastChunk(|parts| - 2)], nl)| + |parts[|parts| - 1]|
  {
    var row, n := EndRow(p, parts), LastChunk(|parts| - 2);
    var first := lines[p.row][..p.column] + parts[0];
    var middle := parts[1..|parts| - 1][..n];
    assert lines'[..row] == lines[..p.row] + [first] + middle;
    RowStartIsPrefix(lines', row, nl);
    RowStartIsPrefix(lines, p.row, nl);
    TerminatedConcat(lines[..p.row] + [first], middle, nl);
    TerminatedConcat(lines[..p.row], [first], nl);
    TerminatedOne(first, nl);
  }

  lemma PartsLength(parts: Lines, nl: string)
    requires |parts| >= 2
    ensures |Flat(parts, nl)| == |parts[0]| + |nl| + |Terminated(parts[1..|parts| - 1], nl)| + |parts[|parts| - 1]|
  {
    assert parts[..|parts| - 1] == [parts[0]] + parts[1..|parts| - 1];
    TerminatedConcat([parts[0]], parts[1..|parts| - 1], nl);
    TerminatedOne(parts[0], nl);
  }

  /** Removing a range is deleting the characters between its two offsets. */
  lemma RemoveIsReplace(lines: Lines, range: Range, nl: string)
    requires ValidPosition(lines, range.start) && ValidPosition(lines, range.end)
    requires var s, e := range.start, range.end; s.row < e.row || (s.row == e.row && s.column <= e.column)
    ensures var o, o' := Offset(lines, range.start, |nl|), Offset(lines, range.end, |nl|);
            && o <= o' <= |Flat(lines, nl)|
            && Flat(RemoveEffect(lines, range), nl) == Replaced(Flat(lines, nl), o, o' - o, "")
            && ValidPosition(RemoveEffect(lines, range), range.start)
  {
    hide Offset, Flat;
    var s, e := range.start, range.end;
    var left, right := lines[s.row][..s.column], lines[e.row][e.column..];
    FlatOne("", nl);
    assert left + "" + right == left + right;
    assert lines[..s.row] + [left + right] + lines[e.row + 1..] == RemoveEffect(lines, range) by {
      if s == e {
        assert left + right == lines[s.row];
      }
    }
    SpliceIsReplace(lines, s, e, [""], RemoveEffect(lines, range), nl);
  }

  // Offsets back to positions ---------------------------------------------------------------------------

  /** With newlines at least one character long, a valid position is determined by its offset. */
  lemma OffsetDetermines(lines: Lines, p: Position, row: nat, column: nat, k: nat)
    requires k > 0 && ValidPosition(lines, p)
    requires row < |lines| && column < |lines[row]| + k
    requires Offset(lines, p, k) == RowStart(lines, row, k) + column
    ensures p == Position(row, column)
  {
    if p.row < row {
      RowStartGrows(lines, p.row, row, k);
    } else if row < p.row {
      RowStartGrows(lines, row, p.row, k);
    }
  }

  /** A valid position lies before the newline after the last line. */
  lemma OffsetInside(lines: Lines, p: Position, k: nat)
    requires ValidPosition(lines, p)
    ensures Offset(lines, p, k) + k <= RowStart(lines, |lines|, k)
  {
    RowStartGrows(lines, p.row, |lines|, k);
  }
}
