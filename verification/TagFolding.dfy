/**
 Folding of tags in the editor: the scan forwards from an opening tag, or backwards from a closing one,
 with a stack that tolerates void elements left open.
 */
module TagFolding {
  import opened Helpers

  datatype Position = Position(row: int, column: int)

  datatype Range = Range(start: Position, end: Position)

  datatype Tag = Tag(name: string, closing: bool, selfClosing: bool, start: Position, end: Position)

  // The stack -----------------------------------------------------------------------------------------------------

  /**
   The stack after a tag that pops: the tag with its name goes, and void elements above it, unless the
   popping tag is itself a void element.
   */
  function Popped(voids: set<string>, stack: seq<Tag>, tag: Tag): (r: seq<Tag>)
    ensures r <= stack
    decreases |stack|
  {
    if stack == [] then []
    else
      var top, below := stack[|stack| - 1], stack[..|stack| - 1];
      if top.name == tag.name then below
      else if tag.name in voids then stack
      else if top.name in voids then Popped(voids, below, tag)
      else stack
  }

  /** Opening tags push on the way forwards, closing tags on the way back. */
  predicate Pushes(tag: Tag, forward: bool) {
    tag.closing != forward
  }

  /** The number of tags read before the one where the scan ends. */
  function Scan(voids: set<string>, stack: seq<Tag>, tags: seq<Tag>, forward: bool): (r: Option<nat>)
    ensures r.Some? ==> r.value < |tags|
    decreases |tags|
  {
    if tags == [] then None
    else
      var tag := tags[0];
      var stack' := if tag.selfClosing then stack
                    else if Pushes(tag, forward) then stack + [tag]
                    else Popped(voids, stack, tag);
      if stack' == [] then Some(0) else OneMore(Scan(voids, stack', tags[1..], forward))
  }

  function OneMore(r: Option<nat>): Option<nat> {
    if r.Some? then Some(r.value + 1) else None
  }

  function Reverse(tags: seq<Tag>): (r: seq<Tag>)
    ensures |r| == |tags| && forall i | 0 <= i < |tags| :: r[i] == tags[|tags| - 1 - i]
  {
    seq(|tags|, i requires 0 <= i < |tags| => tags[|tags| - 1 - i])
  }

  // Well-nested tags ----------------------------------------------------------------------------------------------

  datatype Piece =
    | Alone(tag: Tag)
    | Unclosed(tag: Tag)
    | Element(open: Tag, inner: seq<Piece>, close: Tag)

  predicate WellNested(voids: set<string>, p: Piece)
    decreases p, 0
  {
    match p
    case Alone(tag) => tag.selfClosing
    case Unclosed(tag) => !tag.selfClosing && !tag.closing && tag.name in voids
    case Element(open, inner, close) =>
      && !open.selfClosing && !open.closing && !close.selfClosing && close.closing && open.name == close.name
      && AllWellNested(voids, inner)
  }

  predicate AllWellNested(voids: set<string>, ps: seq<Piece>)
    decreases ps, 1
  {
    ps == [] || (WellNested(voids, ps[0]) && AllWellNested(voids, ps[1..]))
  }

  function PieceTags(p: Piece): seq<Tag>
    decreases p, 0
  {
    match p
    case Alone(tag) => [tag]
    case Unclosed(tag) => [tag]
    case Element(open, inner, close) => [open] + Tags(inner) + [close]
  }

  function Tags(ps: seq<Piece>): seq<Tag>
    decreases ps, 1
  {
    if ps == [] then [] else PieceTags(ps[0]) + Tags(ps[1..])
  }

  /** The tags in the order they are read. */
  function Read(tags: seq<Tag>, forward: bool): (r: seq<Tag>)
    ensures |r| == |tags|
  {
    if forward then tags else Reverse(tags)
  }

  lemma ReadOfBoth(a: seq<Tag>, b: seq<Tag>, forward: bool)
    ensures Read(a + b, forward) == if forward then Read(a, true) + Read(b, true) else Read(b, false) + Read(a, false)
  {
    if !forward {
      var r := Reverse(b) + Reverse(a);
      forall i | 0 <= i < |r| ensures r[i] == Reverse(a + b)[i] {
      }
      assert Reverse(a + b) == r;
    }
  }

  // The scan over well-nested tags --------------------------------------------------------------------------------

  predicate Junk(voids: set<string>, stack: seq<Tag>) {
    forall t | t in stack :: t.name in voids
  }

  /** A stack whose top element is not void. */
  predicate Firm(voids: set<string>, stack: seq<Tag>) {
    stack != [] && stack[|stack| - 1].name !in voids
  }

  /** A void tag takes nothing but void tags off the stack. */
  lemma VoidPopsJunk(voids: set<string>, base: seq<Tag>, junk: seq<Tag>, tag: Tag)
    requires Firm(voids, base) && Junk(voids, junk) && tag.name in voids
    ensures var r := Popped(voids, base + junk, tag);
            |base| <= |r| && r[..|base|] == base && Junk(voids, r[|base|..])
  {
    var stack := base + junk;
    if junk != [] && junk[|junk| - 1].name == tag.name {
      assert Popped(voids, stack, tag) == base + junk[..|junk| - 1];
    } else if junk != [] {
      assert Popped(voids, stack, tag) == stack;
    } else {
      assert stack == base;
      assert Popped(voids, stack, tag) == stack;
    }
  }

  /** Any other tag takes off the void ones and the one with its name. */
  lemma {:induction false} TagPopsItsOwn(voids: set<string>, base: seq<Tag>, own: Tag, junk: seq<Tag>, tag: Tag)
    requires Junk(voids, junk) && tag.name !in voids && own.name == tag.name
    ensures Popped(voids, base + [own] + junk, tag) == base
    decreases |junk|
  {
    var stack := base + [own] + junk;
    if junk == [] {
      assert stack[..|stack| - 1] == base;
    } else {
      assert stack[..|stack| - 1] == base + [own] + junk[..|junk| - 1];
      assert stack[|stack| - 1] == junk[|junk| - 1];
      TagPopsItsOwn(voids, base, own, junk[..|junk| - 1], tag);
    }
  }

  /** One tag whose new stack is not empty: the scan goes on with the rest. */
  lemma ScanStep(voids: set<string>, stack: seq<Tag>, tag: Tag, stack': seq<Tag>, rest: seq<Tag>, forward: bool)
    requires stack' == if tag.selfClosing then stack
                       else if Pushes(tag, forward) then stack + [tag] else Popped(voids, stack, tag)
    requires stack' != []
    ensures Scan(voids, stack, [tag] + rest, forward) == OneMore(Scan(voids, stack', rest, forward))
  {
    assert ([tag] + rest)[1..] == rest;
  }

  function Plus(r: Option<nat>, n: nat): Option<nat> {
    if r.Some? then Some(r.value + n) else None
  }

  /**
   Scanning well-nested tags, in either direction, leaves what was firm on the stack and adds at most void
   tags: the scan does not end among them.
   */
  lemma {:induction false} ScanPiece(voids: set<string>, p: Piece, base: seq<Tag>, junk: seq<Tag>, rest: seq<Tag>,
                                     forward: bool)
    returns (junk': seq<Tag>)
    requires WellNested(voids, p) && Firm(voids, base) && Junk(voids, junk)
    ensures Junk(voids, junk')
    ensures Scan(voids, base + junk, Read(PieceTags(p), forward) + rest, forward)
         == Plus(Scan(voids, base + junk', rest, forward), |PieceTags(p)|)
    decreases p, 0
  {
    hide Scan, Popped, Read;
    match p
    case Alone(tag) =>
      ReadOne(tag, forward);
      ScanStep(voids, base + junk, tag, base + junk, rest, forward);
      junk' := junk;
    case Unclosed(tag) =>
      ReadOne(tag, forward);
      if forward {
        junk' := junk + [tag];
        assert base + junk + [tag] == base + junk';
      } else {
        VoidPopsJunk(voids, base, junk, tag);
        junk' := Popped(voids, base + junk, tag)[|base|..];
        assert Popped(voids, base + junk, tag) == base + junk';
      }
      ScanStep(voids, base + junk, tag, base + junk', rest, forward);
    case Element(open, inner, close) =>
      var first, last := if forward then open else close, if forward then close else open;
      ReadOfElement(open, inner, close, forward);
      Regroup([first], Read(Tags(inner), forward), [last] + rest);
      Regroup([first] + Read(Tags(inner), forward), [last], rest);
      ScanStep(voids, base + junk, first, base + junk + [first], Read(Tags(inner), forward) + ([last] + rest), forward);
      junk' := ScanElement(voids, inner, base, junk, first, last, rest, forward);
  }

  lemma ReadOfElement(open: Tag, inner: seq<Piece>, close: Tag, forward: bool)
    ensures var first, last := if forward then open else close, if forward then close else open;
            Read(PieceTags(Element(open, inner, close)), forward) == [first] + Read(Tags(inner), forward) + [last]
  {
    hide Read;
    var body := Tags(inner);
    ReadOfBoth([open] + body, [close], forward);
    ReadOfBoth([open], body, forward);
    ReadOne(open, forward);
    ReadOne(close, forward);
    if !forward {
      Regroup([close], Read(body, false), [open]);
    }
  }

  lemma ReadOne(tag: Tag, forward: bool)
    ensures Read([tag], forward) == [tag]
  {
  }

  lemma Regroup(a: seq<Tag>, b: seq<Tag>, c: seq<Tag>)
    ensures a + (b + c) == a + b + c
  {
  }

  /** From inside an element, past its end. */
  lemma {:induction false} ScanElement(voids: set<string>, inner: seq<Piece>, base: seq<Tag>, junk: seq<Tag>, first: Tag,
                                       last: Tag, rest: seq<Tag>, forward: bool)
    returns (junk': seq<Tag>)
    requires AllWellNested(voids, inner) && Firm(voids, base) && Junk(voids, junk)
    requires first.name == last.name && !last.selfClosing && !Pushes(last, forward)
    ensures Junk(voids, junk')
    ensures Scan(voids, base + junk + [first], Read(Tags(inner), forward) + ([last] + rest), forward)
         == Plus(Scan(voids, base + junk', rest, forward), |Tags(inner)| + 1)
    decreases inner, 2
  {
    hide Scan, Popped;
    if first.name in voids {
      var mixed := junk + [first];
      assert base + junk + [first] == base + mixed;
      var more := ScanPieces(voids, inner, base, mixed, [last] + rest, forward);
      VoidPopsJunk(voids, base, more, last);
      junk' := Popped(voids, base + more, last)[|base|..];
      assert Popped(voids, base + more, last) == base + junk';
      ScanStep(voids, base + more, last, base + junk', rest, forward);
    } else {
      var firm := base + junk + [first];
      assert firm + [] == firm;
      var more := ScanPieces(voids, inner, firm, [], [last] + rest, forward);
      TagPopsItsOwn(voids, base + junk, first, more, last);
      junk' := junk;
      ScanStep(voids, firm + more, last, base + junk, rest, forward);
    }
  }

  lemma NothingToRead(rest: seq<Tag>, forward: bool)
    ensures Read([], forward) + rest == rest
  {
  }

  lemma ReadForward(tags: seq<Tag>)
    ensures Read(tags, true) == tags
  {
  }

  lemma {:induction false} ScanPieces(voids: set<string>, ps: seq<Piece>, base: seq<Tag>, junk: seq<Tag>, rest: seq<Tag>,
                                      forward: bool)
    returns (junk': seq<Tag>)
    requires AllWellNested(voids, ps) && Firm(voids, base) && Junk(voids, junk)
    ensures Junk(voids, junk')
    ensures Scan(voids, base + junk, Read(Tags(ps), forward) + rest, forward)
         == Plus(Scan(voids, base + junk', rest, forward), |Tags(ps)|)
    decreases ps, 1
  {
    hide Scan, PieceTags, Firm, Junk, WellNested, Read;
    if ps == [] {
      NothingToRead(rest, forward);
      junk' := junk;
    } else {
      var p, more := ps[0], ps[1..];
      ReadOfBoth(PieceTags(p), Tags(more), forward);
      if forward {
        ReadForward(Tags(more));
        Regroup(Read(PieceTags(p), true), Read(Tags(more), true), rest);
        var between := ScanPiece(voids, p, base, junk, Tags(more) + rest, true);
        junk' := ScanPieces(voids, more, base, between, rest, true);
      } else {
        Regroup(Read(Tags(more), false), Read(PieceTags(p), false), rest);
        var between := ScanPieces(voids, more, base, junk, Read(PieceTags(p), false) + rest, false);
        junk' := ScanPiece(voids, p, base, between, rest, false);
      }
    }
  }

  /** Forwards from the opening tag of an element that is not void, the scan ends at its closing tag. */
  lemma ForwardFindsClose(voids: set<string>, open: Tag, inner: seq<Piece>, close: Tag, rest: seq<Tag>)
    requires WellNested(voids, Element(open, inner, close)) && open.name !in voids
    ensures Scan(voids, [], [open] + Tags(inner) + [close] + rest, true) == Some(|Tags(inner)| + 1)
  {
    ScanFinds(voids, open, inner, close, rest, true);
    assert [open] + Tags(inner) + [close] + rest == [open] + (Tags(inner) + ([close] + rest));
  }

  /** Backwards from its closing tag, the scan ends at its opening tag. */
  lemma BackwardFindsOpen(voids: set<string>, open: Tag, inner: seq<Piece>, close: Tag, before: seq<Tag>)
    requires WellNested(voids, Element(open, inner, close)) && open.name !in voids
    ensures Scan(voids, [], Reverse(before + [open] + Tags(inner) + [close]), false) == Some(|Tags(inner)| + 1)
  {
    hide Scan, Tags;
    ScanFinds(voids, close, inner, open, Reverse(before), false);
    ReadOfBoth(before + [open] + Tags(inner), [close], false);
    ReadOfBoth(before + [open], Tags(inner), false);
    ReadOfBoth(before, [open], false);
    assert Reverse([open]) == [open] && Reverse([close]) == [close];
    assert Reverse(before + [open] + Tags(inner) + [close])
        == [close] + (Reverse(Tags(inner)) + ([open] + Reverse(before)));
  }

  lemma ScanFinds(voids: set<string>, first: Tag, inner: seq<Piece>, last: Tag, rest: seq<Tag>, forward: bool)
    requires AllWellNested(voids, inner) && first.name !in voids && first.name == last.name
    requires !first.selfClosing && !last.selfClosing && Pushes(first, forward) && !Pushes(last, forward)
    ensures Scan(voids, [], [first] + (Read(Tags(inner), forward) + ([last] + rest)), forward) == Some(|Tags(inner)| + 1)
  {
    hide Popped;
    var tail := Read(Tags(inner), forward) + ([last] + rest);
    assert [] + [first] == [first] && [first] + [] == [first];
    ScanStep(voids, [], first, [first], tail, forward);
    var junk := ScanPieces(voids, inner, [first], [], [last] + rest, forward);
    TagPopsItsOwn(voids, [], first, junk, last);
    assert [] + [first] + junk == [first] + junk;
    assert Scan(voids, [first] + junk, [last] + rest, forward) == Some(0);
  }

  // The range -----------------------------------------------------------------------------------------------------

  /** Just inside an opening tag. */
  function AfterName(tag: Tag): Position {
    Position(tag.start.row, tag.start.column + |tag.name| + 2)
  }

  /** The inside of a tag that closes itself. */
  function Inside(tag: Tag): Range {
    Range(AfterName(tag), Position(tag.end.row, tag.end.column - 2))
  }

  /** The fold that starts or ends at a tag. */
  function FoldAt(voids: set<string>, tags: seq<Tag>, first: nat): Option<Range>
    requires first < |tags|
  {
    var forward := !tags[first].closing && !tags[first].selfClosing;
    var read := if forward then tags[first..] else Reverse(tags[..first + 1]);
    var r := Scan(voids, [], read, forward);
    if r.None? then None
    else if read[r.value].selfClosing then Some(Inside(read[r.value]))
    else if forward then Some(Range(AfterName(tags[first]), read[r.value].start))
    else Some(Range(AfterName(read[r.value]), tags[first].start))
  }

  /**
   Wherever an element that is not void stands, its opening tag and its closing tag fold the same range, from
   just inside the one to the other.
   */
  lemma BothEndsFoldTheSame(voids: set<string>, before: seq<Tag>, open: Tag, inner: seq<Piece>, close: Tag, rest: seq<Tag>)
    requires WellNested(voids, Element(open, inner, close)) && open.name !in voids
    ensures var tags := before + [open] + Tags(inner) + [close] + rest;
            var first, last := |before|, |before| + 1 + |Tags(inner)|;
            && tags[first] == open && tags[last] == close
            && FoldAt(voids, tags, first)
               == Some(Range(Position(open.start.row, open.start.column + |open.name| + 2), close.start))
            && FoldAt(voids, tags, last) == FoldAt(voids, tags, first)
  {
    hide Scan, Tags;
    var tags := before + [open] + Tags(inner) + [close] + rest;
    var first, last := |before|, |before| + 1 + |Tags(inner)|;
    ForwardFindsClose(voids, open, inner, close, rest);
    BackwardFindsOpen(voids, open, inner, close, before);
    assert tags[first..] == [open] + Tags(inner) + [close] + rest;
    assert tags[..last + 1] == before + [open] + Tags(inner) + [close];
    assert tags[first..][last - first] == close && Reverse(tags[..last + 1])[last - first] == open;
  }

  /** A tag that closes itself, at the start of its line, folds from two columns after its name to two before its end. */
  lemma SelfClosingFoldsItself(voids: set<string>, tags: seq<Tag>, first: nat)
    requires first < |tags| && tags[first].selfClosing
    ensures var tag := tags[first];
            FoldAt(voids, tags, first)
            == Some(Range(Position(tag.start.row, tag.start.column + |tag.name| + 2), Position(tag.end.row, tag.end.column - 2)))
  {
    hide Scan;
    var read := Reverse(tags[..first + 1]);
    assert read[0] == tags[first];
    ScanUnfolds(voids, [], read, false);
  }

  /** Of any other fold: the end that is at its tag, unless the scan ends at a tag that closes itself, whose inside it folds. */
  lemma FoldIsAnchored(voids: set<string>, tags: seq<Tag>, first: nat)
    requires first < |tags| && !tags[first].selfClosing && FoldAt(voids, tags, first).Some?
    ensures var tag, range := tags[first], FoldAt(voids, tags, first).value;
            || (!tag.closing && range.start == Position(tag.start.row, tag.start.column + |tag.name| + 2)
                && exists last | first <= last < |tags| :: range.end == tags[last].start)
            || (tag.closing && range.end == tag.start
                && exists last | 0 <= last <= first ::
                     range.start == Position(tags[last].start.row, tags[last].start.column + |tags[last].name| + 2))
            || (exists t | t in tags ::
                  t.selfClosing
                  && range == Range(Position(t.start.row, t.start.column + |t.name| + 2), Position(t.end.row, t.end.column - 2)))
  {
    hide Scan;
    var forward := !tags[first].closing;
    var read := if forward then tags[first..] else Reverse(tags[..first + 1]);
    var r := Scan(voids, [], read, forward).value;
    assert read[r] == tags[if forward then first + r else first - r];
  }

  class FoldMode {
    const voidElements: set<string>

    constructor (voidElements: set<string>)
      ensures this.voidElements == voidElements
    {
      this.voidElements := voidElements;
    }

    method Pop(stack: seq<Tag>, tag: Tag) returns (r: seq<Tag>)
      ensures r == Popped(voidElements, stack, tag)
    {
      r := stack;
      while |r| > 0
        invariant Popped(voidElements, r, tag) == Popped(voidElements, stack, tag)
        decreases |r|
      {
        var top := r[|r| - 1];
        if top.name == tag.name {
          r := r[..|r| - 1];
          return;
        } else if tag.name in voidElements {
          return;
        } else if top.name in voidElements {
          r := r[..|r| - 1];
        } else {
          return;
        }
      }
    }

    /** The fold at the first tag of a line; none when the line has no tag. */
    method GetFoldWidgetRange(tags: seq<Tag>, firstInLine: Option<nat>) returns (range: Option<Range>)
      requires firstInLine.Some? ==> firstInLine.value < |tags|
      ensures range == if firstInLine.None? then None else FoldAt(voidElements, tags, firstInLine.value)
    {
      if firstInLine.None? {
        return None;
      }
      var first := firstInLine.value;
      var firstTag := tags[first];
      var isBackward := firstTag.closing || firstTag.selfClosing;
      if !isBackward {
        range := FoldForward(tags, first);
      } else {
        range := FoldBackward(tags, first);
      }
    }

    method FoldForward(tags: seq<Tag>, first: nat) returns (range: Option<Range>)
      requires first < |tags| && !tags[first].closing && !tags[first].selfClosing
      ensures range == FoldAt(voidElements, tags, first)
    {
      hide Popped, Scan;
      var stack: seq<Tag> := [];
      ghost var goal := Scan(voidElements, [], tags[first..], true);
      var i := first;
      while i < |tags|
        invariant first <= i <= |tags|
        invariant goal == Plus(Scan(voidElements, stack, tags[i..], true), i - first)
      {
        var tag := tags[i];
        assert tags[i..][1..] == tags[i + 1..] && tags[first..][i - first] == tag;
        ScanUnfolds(voidElements, stack, tags[i..], true);
        if tag.selfClosing {
          if |stack| == 0 {
            return Some(Inside(tag));
          }
        } else if tag.closing {
          stack := Pop(stack, tag);
          if |stack| == 0 {
            return Some(Range(AfterName(tags[first]), tag.start));
          }
        } else {
          stack := stack + [tag];
        }
        i := i + 1;
      }
      NothingToScan(voidElements, stack, true);
      range := None;
    }

    method FoldBackward(tags: seq<Tag>, first: nat) returns (range: Option<Range>)
      requires first < |tags| && (tags[first].closing || tags[first].selfClosing)
      ensures range == FoldAt(voidElements, tags, first)
    {
      hide Popped, Reverse, Scan;
      var stack: seq<Tag> := [];
      ghost var read := Reverse(tags[..first + 1]);
      ghost var goal := Scan(voidElements, [], read, false);
      var i := first + 1;
      while i > 0
        invariant 0 <= i <= first + 1
        invariant goal == Plus(Scan(voidElements, stack, Reverse(tags[..i]), false), first + 1 - i)
      {
        i := i - 1;
        var tag := tags[i];
        ReverseStep(tags, i);
        assert read[first - i] == tag;
        ScanUnfolds(voidElements, stack, Reverse(tags[..i + 1]), false);
        if tag.selfClosing {
          if |stack| == 0 {
            return Some(Inside(tag));
          }
        } else if !tag.closing {
          stack := Pop(stack, tag);
          if |stack| == 0 {
            return Some(Range(AfterName(tag), tags[first].start));
          }
        } else {
          stack := stack + [tag];
        }
      }
      assert Reverse(tags[..i]) == [];
      NothingToScan(voidElements, stack, false);
      range := None;
    }
  }

  lemma ScanUnfolds(voids: set<string>, stack: seq<Tag>, tags: seq<Tag>, forward: bool)
    requires tags != []
    ensures var tag := tags[0];
            var stack' := if tag.selfClosing then stack
                          else if Pushes(tag, forward) then stack + [tag] else Popped(voids, stack, tag);
            Scan(voids, stack, tags, forward) ==
            if stack' == [] then Some(0) else OneMore(Scan(voids, stack', tags[1..], forward))
  {
    hide Popped;
  }

  lemma NothingToScan(voids: set<string>, stack: seq<Tag>, forward: bool)
    ensures Scan(voids, stack, [], forward) == None
  {
  }

  lemma ReverseStep(tags: seq<Tag>, i: nat)
    requires i < |tags|
    ensures Reverse(tags[..i + 1]) != [] && Reverse(tags[..i + 1])[0] == tags[i]
    ensures Reverse(tags[..i + 1])[1..] == Reverse(tags[..i])
  {
  }

  // A fold that starts at a void element left open ------------------------------------------------------------------

  function LineTag(name: string, closing: bool, row: int): Tag {
    Tag(name, closing, false, Position(row, 0), Position(row, 9))
  }

  /** A br inside of a div: from the br the fold ends at the closing tag of the div, which itself folds the div. */
  lemma UnclosedFoldsElsewhere()
    ensures var voids, open, br, close := {"br"}, LineTag("div", false, 0), LineTag("br", false, 1), LineTag("div", true, 2);
            var tags := [open, br, close];
            && WellNested(voids, Element(open, [Unclosed(br)], close)) && tags == PieceTags(Element(open, [Unclosed(br)], close))
            && FoldAt(voids, tags, 1) == Some(Range(Position(1, 4), Position(2, 0)))
            && FoldAt(voids, tags, 2) == Some(Range(Position(0, 5), Position(2, 0))) == FoldAt(voids, tags, 0)
  {
    hide FoldAt, AllWellNested, Tags;
    var voids, open, br, close := {"br"}, LineTag("div", false, 0), LineTag("br", false, 1), LineTag("div", true, 2);
    UnclosedIsNested(voids, br);
    assert open.name !in voids by { NamesDiffer(); }
    BothEndsFoldTheSame(voids, [], open, [Unclosed(br)], close, []);
    assert [] + [open] + [br] + [close] + [] == [open, br, close] == [open] + [br] + [close];
    UnclosedFold(voids, open, br, close);
  }

  lemma NamesDiffer()
    ensures "br" != "div" && "div" !in {"br"}
  {
    assert "br"[0] == 'b' && "div"[0] == 'd';
  }

  lemma UnclosedIsNested(voids: set<string>, br: Tag)
    requires voids == {"br"} && br == LineTag("br", false, 1)
    ensures AllWellNested(voids, [Unclosed(br)]) && Tags([Unclosed(br)]) == [br]
  {
    assert AllWellNested(voids, []) && [Unclosed(br)][1..] == [];
    assert WellNested(voids, Unclosed(br));
    assert Tags([Unclosed(br)]) == [br] + Tags([]) == [br];
  }

  lemma UnclosedFold(voids: set<string>, open: Tag, br: Tag, close: Tag)
    requires voids == {"br"} && br == LineTag("br", false, 1) && close == LineTag("div", true, 2)
    ensures FoldAt(voids, [open, br, close], 1) == Some(Range(AfterName(br), close.start))
  {
    hide Scan;
    UnclosedScan(voids, br, close);
    assert [open, br, close][1..] == [br, close];
  }

  lemma UnclosedScan(voids: set<string>, br: Tag, close: Tag)
    requires voids == {"br"} && br == LineTag("br", false, 1) && close == LineTag("div", true, 2)
    ensures Scan(voids, [], [br, close], true) == Some(1)
  {
    assert "br"[0] == 'b' && "div"[0] == 'd';
    assert close.name !in voids && [] + [br] == [br] && [br, close][1..] == [close] && [br][..0] == [];
    assert Popped(voids, [br], close) == Popped(voids, [], close) == [];
    assert Scan(voids, [br], [close], true) == Some(0);
  }
}
