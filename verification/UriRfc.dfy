/** Normalised paths against section 5.2.4 of RFC 3986, whole path against whole path. */
module UriRfc {
  import opened Helpers

  import opened UriPaths

  // The algorithm of the RFC ----------------------------------------------------------------------------------------

  /** The output buffer without its last segment and the slash before it. */
  function DropLast(output: string): (r: string)
  {
    if output == "" then "" else if output[|output| - 1] == '/' then output[..|output| - 1] else DropLast(output[..|output| - 1])
  }

  /** The step that applies to an input that is not empty, 2A to 2E in their order: the new input and output. */
  function Step(input: string, output: string): (r: (string, string))
    requires input != ""
    ensures |r.0| < |input|
  {
    if "../" <= input then (input[3..], output)
    else if "./" <= input then (input[2..], output)
    else if "/./" <= input then (input[2..], output)
    else if input == "/." then ("/", output)
    else if "/../" <= input then (input[3..], DropLast(output))
    else if input == "/.." then ("/", DropLast(output))
    else if input == "." || input == ".." then ("", output)
    else
      var n := 1 + IndexOf(input[1..], '/');
      (input[n..], output + input[..n])
  }

  /** Steps until the input is used up. */
  function RemoveDotSegments(input: string, output: string): string
    decreases |input|
  {
    if input == "" then output
    else
      var (input', output') := Step(input, output);
      RemoveDotSegments(input', output')
  }

  // The same on parts -----------------------------------------------------------------------------------------------

  predicate SlashFree(parts: seq<string>) {
    forall p | p in parts :: '/' !in p
  }

  function Pop(stack: seq<string>): seq<string> {
    if stack == [] then [] else stack[..|stack| - 1]
  }

  /** What is left of the parts between slashes; a dot segment at the end leaves an empty part. */
  function RfcParts(stack: seq<string>, parts: seq<string>): (r: seq<string>)
    requires parts != []
    ensures r != []
    decreases |parts|
  {
    var p := parts[0];
    if |parts| == 1 then (if p == ".." then Pop(stack) else stack) + [if p == "." || p == ".." then "" else p]
    else RfcParts(if p == "." then stack else if p == ".." then Pop(stack) else stack + [p], parts[1..])
  }

  /** The output buffer. */
  function Buffer(stack: seq<string>): string {
    if stack == [] then "" else Buffer(stack[..|stack| - 1]) + "/" + stack[|stack| - 1]
  }

  lemma {:induction false} DropsPart(output: string, part: string)
    requires '/' !in part
    ensures DropLast(output + "/" + part) == output
    decreases |part|
  {
    var s := output + "/" + part;
    if part == "" {
      assert s == output + "/" && s[..|s| - 1] == output;
    } else {
      assert s[|s| - 1] == part[|part| - 1] && part[|part| - 1] in part;
      assert s[..|s| - 1] == output + "/" + part[..|part| - 1];
      DropsPart(output, part[..|part| - 1]);
    }
  }

  lemma BufferPops(stack: seq<string>)
    requires SlashFree(stack)
    ensures DropLast(Buffer(stack)) == Buffer(Pop(stack))
  {
    if stack != [] {
      assert stack[|stack| - 1] in stack;
      DropsPart(Buffer(stack[..|stack| - 1]), stack[|stack| - 1]);
    }
  }

  lemma BufferPushes(stack: seq<string>, part: string)
    ensures Buffer(stack + [part]) == Buffer(stack) + "/" + part
  {
    assert (stack + [part])[..|stack|] == stack;
  }

  /** One segment in front of others, or alone. */
  lemma FirstSegment(part: string, rest: string)
    requires '/' !in part && (rest == "" || rest[0] == '/')
    ensures var input := "/" + part + rest;
            && 1 + IndexOf(input[1..], '/') == 1 + |part| && input[1 + |part|..] == rest && input[..1 + |part|] == "/" + part
  {
    hide IndexOf;
    var s := part + rest;
    assert ("/" + part + rest)[1..] == s;
    assert forall k | 0 <= k < |part| :: s[k] == part[k] && part[k] in part;
    if rest != "" {
      assert s[|part|] == '/';
    }
  }

  /** Which step applies to an absolute input depends on its first segment. */
  lemma SegmentSteps(part: string, rest: string, output: string)
    requires '/' !in part && (rest == "" || rest[0] == '/')
    ensures var r := RemoveDotSegments("/" + part + rest, output);
            if part == "." then r == RemoveDotSegments(if rest == "" then "/" else rest, output)
            else if part == ".." then r == RemoveDotSegments(if rest == "" then "/" else rest, DropLast(output))
            else r == RemoveDotSegments(rest, output + "/" + part)
  {
    hide Step, DropLast;
    if part == "." || part == ".." {
      DotSegment(part, rest, output);
    } else {
      OtherStep(part, rest, output);
    }
  }

  lemma DotSegment(part: string, rest: string, output: string)
    requires (part == "." || part == "..") && (rest == "" || rest[0] == '/')
    ensures Step("/" + part + rest, output)
            == (if rest == "" then "/" else rest, if part == "." then output else DropLast(output))
  {
    hide IndexOf, DropLast;
    var input := "/" + part + rest;
    assert input[0] == '/' && input[1] == '.';
    if rest == "" {
      assert input == if part == "." then "/." else "/..";
      assert part == ".." ==> input[2] == '.';
    } else {
      assert input[1 + |part|] == '/' && input[1 + |part|..] == rest;
      assert part == ".." ==> input[2] == '.';
    }
  }

  lemma OtherStep(part: string, rest: string, output: string)
    requires '/' !in part && (rest == "" || rest[0] == '/') && part != "." && part != ".."
    ensures Step("/" + part + rest, output) == (rest, output + "/" + part)
  {
    hide IndexOf, DropLast;
    FirstSegment(part, rest);
    OtherSegment(part, rest);
    assert ("/" + part + rest)[0] == '/';
    assert output + ("/" + part) == output + "/" + part;
  }

  lemma OtherSegment(part: string, rest: string)
    requires '/' !in part && (rest == "" || rest[0] == '/') && part != "." && part != ".."
    ensures var input := "/" + part + rest;
            !("/./" <= input) && input != "/." && !("/../" <= input) && input != "/.."
  {
    var input := "/" + part + rest;
    assert forall k | 0 <= k < |part| :: input[k + 1] == part[k] && part[k] in part;
    if rest != "" {
      assert input[|part| + 1] == '/';
    }
    if |part| == 1 {
      assert part == [input[1]];
    } else if |part| == 2 {
      assert part == [input[1], input[2]] && part[1] in part;
    } else if |part| > 2 {
      assert input[2] == part[1] && part[1] in part && input[3] == part[2] && part[2] in part;
    }
  }

  lemma SlashMoves(output: string)
    ensures RemoveDotSegments("/", output) == output + "/"
  {
    assert "/" + "" + "" == "/";
    SegmentSteps("", "", output);
    assert output + "/" + "" == output + "/";
  }

  /** The algorithm on a path is the pass over its parts. */
  lemma {:induction false} RfcIsParts(stack: seq<string>, parts: seq<string>)
    requires parts != [] && SlashFree(parts) && SlashFree(stack)
    ensures RemoveDotSegments("/" + Join(parts), Buffer(stack)) == Buffer(RfcParts(stack, parts))
    decreases |parts|
  {
    hide RemoveDotSegments, Buffer, DropLast, Join, RfcParts, Pop;
    var p := parts[0];
    assert p in parts;
    RfcPartsStep(stack, parts);
    if |parts| == 1 {
      assert parts == [p];
      OnePart(p);
      LastSegment(stack, p);
    } else {
      var left := if p == ".." then Pop(stack) else stack;
      var stack' := if p == "." || p == ".." then left else stack + [p];
      var rest := "/" + Join(parts[1..]);
      JoinStep(parts);
      assert "/" + (p + rest) == "/" + p + rest;
      SegmentSteps(p, rest, Buffer(stack));
      BufferPops(stack);
      BufferPushes(stack, p);
      StillSlashFree(stack, p);
      RfcIsParts(stack', parts[1..]);
    }
  }

  lemma StillSlashFree(stack: seq<string>, p: string)
    requires SlashFree(stack) && '/' !in p
    ensures SlashFree(stack + [p]) && SlashFree(Pop(stack))
  {
  }

  lemma RfcPartsStep(stack: seq<string>, parts: seq<string>)
    requires parts != []
    ensures var p := parts[0]; var left := if p == ".." then Pop(stack) else stack;
            RfcParts(stack, parts)
            == if |parts| == 1 then left + [if p == "." || p == ".." then "" else p]
               else RfcParts(if p == "." || p == ".." then left else stack + [p], parts[1..])
  {
  }

  lemma JoinStep(parts: seq<string>)
    requires |parts| > 1
    ensures "/" + Join(parts) == "/" + (parts[0] + ("/" + Join(parts[1..])))
  {
  }

  lemma LastSegment(stack: seq<string>, p: string)
    requires '/' !in p && SlashFree(stack)
    ensures var left := if p == ".." then Pop(stack) else stack;
            RemoveDotSegments("/" + p, Buffer(stack)) == Buffer(left + [if p == "." || p == ".." then "" else p])
  {
    hide RemoveDotSegments, Buffer, DropLast, Pop;
    var left := if p == ".." then Pop(stack) else stack;
    assert "/" + p + "" == "/" + p;
    SegmentSteps(p, "", Buffer(stack));
    BufferPops(stack);
    BufferPushes(left, "");
    BufferPushes(left, p);
    SlashMoves(Buffer(left));
    assert Buffer(left) + "/" + "" == Buffer(left) + "/";
    NothingLeft(Buffer(left) + "/" + p);
  }

  lemma OnePart(part: string)
    ensures Join([part]) == part
  {
  }

  lemma NothingLeft(output: string)
    ensures RemoveDotSegments("", output) == output
  {
  }

  lemma {:induction false} BufferJoins(stack: seq<string>)
    requires stack != []
    ensures Buffer(stack) == "/" + Join(stack)
    decreases |stack|
  {
    if |stack| == 1 {
      assert stack[..0] == [];
      assert Buffer([]) == "";
    } else {
      var n := |stack| - 1;
      BufferJoins(stack[..n]);
      JoinOfLast(stack[..n], stack[n]);
      assert stack == stack[..n] + [stack[n]];
    }
  }

  lemma {:induction false} JoinOfLast(parts: seq<string>, last: string)
    requires parts != []
    ensures Join(parts + [last]) == Join(parts) + "/" + last
    decreases |parts|
  {
    var all := parts + [last];
    assert all[1..] == parts[1..] + [last];
    if |parts| == 1 {
      assert all[1..] == [last];
      assert Join([last]) == last;
    } else {
      JoinOfLast(parts[1..], last);
      assert parts[0] + "/" + (Join(parts[1..]) + "/" + last) == parts[0] + "/" + Join(parts[1..]) + "/" + last;
    }
  }

  /** The parts of a joined text are what was joined. */
  lemma {:induction false} SplitOfJoin(parts: seq<string>)
    requires parts != [] && SlashFree(parts)
    ensures Split(Join(parts)) == parts
    decreases |parts|
  {
    hide Split;
    var p := parts[0];
    assert p in parts;
    assert forall k | 0 <= k < |p| :: p[k] in p;
    if |parts| == 1 {
      WholePart(p);
      assert parts == [p];
    } else {
      SplitOfJoin(parts[1..]);
      SplitFirst(p, Join(parts[1..]));
      assert parts == [p] + parts[1..];
    }
  }

  /** The result of the RFC for a path, by its parts. */
  function RfcPath(path: string): string {
    RemoveDotSegments(path, "")
  }

  lemma RfcPathJoins(path: string)
    requires path != "" && path[0] == '/'
    ensures RfcPath(path) == "/" + Join(RfcParts([], Split(path[1..])))
  {
    assert Split(path[1..]) != [] && SlashFree(Split(path[1..]));
    hide RemoveDotSegments, Join, Split;
    JoinOfSplit(path[1..]);
    assert path == "/" + path[1..];
    RfcIsParts([], Split(path[1..]));
    assert Buffer([]) == "";
    BufferJoins(RfcParts([], Split(path[1..])));
  }

  // Parts and segments ----------------------------------------------------------------------------------------------

  lemma {:induction false} RfcPartsSplit(stack: seq<string>, parts: seq<string>)
    requires parts != []
    ensures var n := |parts| - 1; var front, last := RemoveDots(stack, parts[..n]), parts[n];
            RfcParts(stack, parts)
            == (if last == ".." then Pop(front) else front) + [if last == "." || last == ".." then "" else last]
    decreases |parts|
  {
    var n := |parts| - 1;
    if n == 0 {
      assert parts[..0] == [];
    } else {
      var p := parts[0];
      var stack' := if p == "." then stack else if p == ".." then Pop(stack) else stack + [p];
      RfcPartsSplit(stack', parts[1..]);
      assert parts[..n][0] == p && parts[..n][1..] == parts[1..][..n - 1];
    }
  }

  /** One more part at the end. */
  lemma {:induction false} RemoveDotsLast(stack: seq<string>, parts: seq<string>, last: string)
    ensures var front := RemoveDots(stack, parts);
            RemoveDots(stack, parts + [last]) == if last == "." then front else if last == ".." then Pop(front) else front + [last]
    decreases |parts|
  {
    if parts == [] {
      assert [] + [last] == [last] && [last][1..] == [];
    } else {
      assert (parts + [last])[0] == parts[0] && (parts + [last])[1..] == parts[1..] + [last];
      var p := parts[0];
      RemoveDotsLast(if p == "." then stack else if p == ".." then Pop(stack) else stack + [p], parts[1..], last);
    }
  }

  lemma {:induction false} ClimbsLast(depth: nat, parts: seq<string>, last: string)
    requires last != ".."
    ensures Climbs(depth, parts + [last]) == Climbs(depth, parts)
    decreases |parts|
  {
    if parts == [] {
      assert [] + [last] == [last] && [last][1..] == [];
    } else {
      assert (parts + [last])[0] == parts[0] && (parts + [last])[1..] == parts[1..] + [last];
      var p := parts[0];
      ClimbsLast(if p == "." then depth else if p != ".." then depth + 1 else if depth == 0 then 0 else depth - 1, parts[1..], last);
    }
  }

  /** A part more at the bottom is what the first climb above takes. */
  lemma {:induction false} BottomPart(x: string, stack: seq<string>, parts: seq<string>)
    ensures var c := Climbs(|stack|, parts);
            && Climbs(|stack| + 1, parts) == (if c == 0 then 0 else c - 1)
            && RemoveDots([x] + stack, parts) == (if c == 0 then [x] else []) + RemoveDots(stack, parts)
    decreases |parts|
  {
    if parts != [] {
      var p, more := parts[0], parts[1..];
      if p == "." {
        BottomPart(x, stack, more);
      } else if p != ".." {
        assert [x] + stack + [p] == [x] + (stack + [p]);
        BottomPart(x, stack + [p], more);
      } else if stack == [] {
        assert [x] + [] == [x] && [x][..0] == [];
      } else {
        assert ([x] + stack)[..|stack|] == [x] + stack[..|stack| - 1];
        BottomPart(x, stack[..|stack| - 1], more);
      }
    }
  }

  predicate Dotless(parts: seq<string>) {
    forall p | p in parts :: p != "." && p != ".."
  }

  lemma DotlessStep(p: string, more: seq<string>)
    ensures Dotless([p] + more) <==> p != "." && p != ".." && Dotless(more)
  {
    var all := [p] + more;
    assert all[0] == p && all[1..] == more;
    assert p in all && forall q | q in more :: q in all;
    assert forall q | q in all :: q == p || q in more;
  }

  /** Parts stay as they are exactly when none of them is a dot segment. */
  lemma {:induction false} NoDotsKept(stack: seq<string>, parts: seq<string>)
    ensures Dotless(parts) ==> RemoveDots(stack, parts) == stack + parts
    ensures !Dotless(parts) ==> |RemoveDots(stack, parts)| < |stack| + |parts|
    decreases |parts|
  {
    if parts == [] {
      assert stack + [] == stack;
    } else {
      var p, more := parts[0], parts[1..];
      assert parts == [p] + more;
      DotlessStep(p, more);
      var stack' := if p == "." then stack else if p == ".." then Pop(stack) else stack + [p];
      NoDotsKept(stack', more);
      assert stack + [p] + more == stack + parts;
      ShorterOrEqual(stack', more);
    }
  }

  lemma {:induction false} ShorterOrEqual(stack: seq<string>, parts: seq<string>)
    ensures |RemoveDots(stack, parts)| <= |stack| + |parts|
    decreases |parts|
  {
    if parts != [] {
      var p := parts[0];
      ShorterOrEqual(if p == "." then stack else if p == ".." then Pop(stack) else stack + [p], parts[1..]);
    }
  }

  /** The parser's segments in terms of the parts after the first slash. */
  lemma SegmentsOfParts(path: string)
    requires |path| > 1 && path[0] == '/'
    ensures var parts := Split(path[1..]); var n := |parts| - 1;
            var lead := if path[1] == '/' then [""] else [];
            && (EndsWithSlash(path) <==> parts[n] == "") && (EndsInSlashDot(path) <==> parts[n] == ".")
            && Segments(path) == lead + if parts[n] == "" && !DoubleAtEnd(path) then parts[..n] else parts
  {
    hide Split, Shifted, Segments;
    var parts := Split(path[1..]);
    SegmentsFromShifted(path);
    SplitFirst("", path[1..]);
    assert "" + "/" + path[1..] == path;
    ShiftedIs(path);
    LastOfParts(path[1..]);
    EndsTellLast(path);
  }

  predicate DoubleAtEnd(path: string) {
    |path| > 1 && path[|path| - 1] == '/' && path[|path| - 2] == '/'
  }

  lemma ShiftedIs(path: string)
    requires |path| > 1 && path[0] == '/' && Split(path) == [""] + Split(path[1..])
    ensures Shifted(path) == if path[1] == '/' then [""] + Split(path[1..]) else Split(path[1..])
  {
    hide Split;
    assert ([""] + Split(path[1..]))[1..] == Split(path[1..]);
  }

  /** The last part is what follows the last slash. */
  lemma {:induction false} LastOfParts(s: string)
    ensures var last := Split(s)[|Split(s)| - 1];
            && |last| <= |s| && s[|s| - |last|..] == last && (|last| < |s| ==> s[|s| - |last| - 1] == '/')
    decreases |s|
  {
    hide Split, IndexOf;
    var i := IndexOf(s, '/');
    if i < |s| {
      LastPart(s);
      LastOfParts(s[i + 1..]);
      var last := Split(s)[|Split(s)| - 1];
      assert s[i + 1..][|s| - i - 1 - |last|..] == s[|s| - |last|..];
    } else {
      WholePart(s);
    }
  }

  lemma EndsTellLast(path: string)
    requires |path| > 1 && path[0] == '/'
    ensures var parts := Split(path[1..]); var last := parts[|parts| - 1];
            (EndsWithSlash(path) <==> last == "") && (EndsInSlashDot(path) <==> last == ".")
  {
    hide Split;
    var s := path[1..];
    LastOfParts(s);
    var last := Split(s)[|Split(s)| - 1];
    assert last in Split(s) && '/' !in last;
    assert path[|path| - |last|..] == last && path[|path| - |last| - 1] == '/';
    assert |last| > 0 ==> path[|path| - 1] == last[|last| - 1] && last[|last| - 1] in last;
    assert |last| > 1 ==> path[|path| - 2] == last[|last| - 2] && last[|last| - 2] in last;
    assert path[|path| - 2..] == [path[|path| - 2], path[|path| - 1]];
    assert |last| == 1 ==> last == [path[|path| - 1]];
  }

  // Whole paths -----------------------------------------------------------------------------------------------------

  /** The parts of the path that normalisation leaves. */
  function LeftParts(path: string): (r: seq<string>)
    requires |path| > 1 && path[0] == '/'
    ensures r != []
  {
    var parts, stack := Split(path[1..]), Reduce([], Segments(path));
    if EndsInSlashDot(path) then parts[..|parts| - 1] + [""]
    else if stack == [] then [""]
    else if EndsWithSlash(path) then stack + [""]
    else stack
  }

  lemma LeftPartsJoin(path: string)
    requires |path| > 1 && path[0] == '/'
    ensures NormalPath(Segments(path), path) == "/" + Join(LeftParts(path))
  {
    hide Split, Segments, Reduce, Join, EndsInSlashDot, EndsWithSlash;
    SpelledIff(path);
    var stack := Reduce([], Segments(path));
    if EndsInSlashDot(path) {
      WithoutDot(path);
    } else {
      SpelledJoins(stack, path);
    }
  }

  lemma SpelledJoins(stack: seq<string>, path: string)
    ensures Spelled(stack, path)
            == "/" + Join(if stack == [] then [""] else if EndsWithSlash(path) then stack + [""] else stack)
  {
    hide Join;
    JoinOfEmpty();
    if stack != [] && EndsWithSlash(path) {
      JoinOfLast(stack, "");
      assert "/" + Join(stack) + "/" == "/" + (Join(stack) + "/" + "");
    } else if stack != [] {
      assert "/" + Join(stack) + "" == "/" + Join(stack);
    }
  }

  lemma JoinOfEmpty()
    ensures Join([""]) == ""
  {
  }

  /** Taking the last dot away leaves an empty last part. */
  lemma WithoutDot(path: string)
    requires |path| > 1 && path[0] == '/' && EndsInSlashDot(path)
    ensures var parts := Split(path[1..]); path[..|path| - 1] == "/" + Join(parts[..|parts| - 1] + [""])
  {
    EndsTellLast(path);
    JoinOfSplit(path[1..]);
    var parts := Split(path[1..]);
    assert parts != [];
    hide Split, Join, EndsInSlashDot;
    var front := parts[..|parts| - 1];
    assert parts == front + ["."];
    JoinPrefix(front, ".");
    OneOff(path, Join(front + [""]));
  }

  lemma OneOff(path: string, text: string)
    requires path != "" && path[0] == '/' && path[1..] == text + "."
    ensures path[..|path| - 1] == "/" + text
  {
    assert path == "/" + (text + ".");
  }

  lemma JoinPrefix(front: seq<string>, last: string)
    ensures Join(front + [last]) == Join(front + [""]) + last
  {
    hide Join;
    if front == [] {
      assert [] + [last] == [last] && [] + [""] == [""];
      OnePart(last);
      OnePart("");
      assert "" + last == last;
    } else {
      JoinOfLast(front, last);
      JoinOfLast(front, "");
      assert Join(front) + "/" + "" + last == Join(front) + "/" + last;
    }
  }

  lemma {:induction false} ReducedSlashFree(stack: seq<string>, segments: seq<string>)
    requires SlashFree(stack) && SlashFree(segments)
    ensures SlashFree(Reduce(stack, segments))
    decreases |segments|
  {
    if segments != [] {
      ReducedSlashFree(Push(stack, segments[0]), segments[1..]);
    }
  }

  lemma {:induction false} RfcSlashFree(stack: seq<string>, parts: seq<string>)
    requires parts != [] && SlashFree(stack) && SlashFree(parts)
    ensures SlashFree(RfcParts(stack, parts))
    decreases |parts|
  {
    if |parts| > 1 {
      var p := parts[0];
      RfcSlashFree(if p == "." then stack else if p == ".." then Pop(stack) else stack + [p], parts[1..]);
    }
  }

  lemma LeftSlashFree(path: string)
    requires |path| > 1 && path[0] == '/'
    ensures SlashFree(LeftParts(path)) && SlashFree(RfcParts([], Split(path[1..])))
  {
    var parts := Split(path[1..]);
    assert SlashFree(parts) && parts != [];
    hide Split, Segments, Reduce;
    SegmentsOfParts(path);
    ReducedSlashFree([], Segments(path));
    RfcSlashFree([], parts);
  }

  /** Normalising agrees with the RFC exactly when the parts that are left are the same. */
  lemma SamePathIffSameParts(path: string)
    requires |path| > 1 && path[0] == '/'
    ensures NormalPath(Segments(path), path) == RfcPath(path) <==> LeftParts(path) == RfcParts([], Split(path[1..]))
  {
    hide Split, Segments, Reduce, Join, LeftParts, RfcParts, RfcPath, NormalPath;
    LeftPartsJoin(path);
    RfcPathJoins(path);
    LeftSlashFree(path);
    var a, b := LeftParts(path), RfcParts([], Split(path[1..]));
    SplitOfJoin(a);
    SplitOfJoin(b);
    assert ("/" + Join(a))[1..] == Join(a) && ("/" + Join(b))[1..] == Join(b);
  }

  /**
   When the parser agrees with the RFC on an absolute path. It never does when the path ends in two slashes; after
   a final "/." it does if there are no other dot segments; after a final ".." only if nothing is left but the
   root; and otherwise if ".." climbs above the root an even number of times, which is an odd number if the path
   starts with two slashes, as the first climb then takes the empty segment that is too many.
   */
  predicate AgreesOnPath(path: string)
    requires |path| > 1 && path[0] == '/'
  {
    var parts := Split(path[1..]);
    var n := |parts| - 1;
    if DoubleAtEnd(path) then false
    else if parts[n] == "." then Dotless(parts[..n])
    else if parts[n] == ".." then
      Reduce([], Segments(path)) == []
      || (path[1] == '/' && Climbs(0, parts) == 0 && forall p | p in RemoveDots([], parts) :: p == "")
    else Climbs(0, parts[..n]) % 2 == if path[1] == '/' then 1 else 0
  }

  lemma ReducedIs(lead: bool, body: seq<string>)
    ensures var d, c := RemoveDots([], body), Climbs(0, body);
            Reduce([], (if lead then [""] else []) + body)
            == Fronted(lead, c, d)
  {
    hide Reduce, RemoveDots, Climbs;
    ReduceAgainstRfc([], body, false);
    assert Above(false) + [] == [];
    if lead {
      ReduceLead(body);
      ReduceAgainstRfc([""], body, false);
      BottomPart("", [], body);
      assert Above(false) + [""] == [""] && [""] + [] == [""];
      assert Above(false) + ([""] + RemoveDots([], body)) == [""] + RemoveDots([], body);
      assert [] + RemoveDots([], body) == RemoveDots([], body);
    } else {
      assert [] + body == body;
    }
  }

  lemma ReduceLead(body: seq<string>)
    ensures Reduce([], [""] + body) == Reduce([""], body)
  {
    assert ([""] + body)[0] == "" && ([""] + body)[1..] == body;
    assert [] + [""] == [""];
  }

  lemma {:induction false} NoClimbsLeft(stack: seq<string>, parts: seq<string>)
    requires ".." !in stack
    ensures ".." !in RemoveDots(stack, parts)
    decreases |parts|
  {
    if parts != [] {
      var p := parts[0];
      NoClimbsLeft(if p == "." then stack else if p == ".." then Pop(stack) else stack + [p], parts[1..]);
    }
  }

  /** After a final "..". */
  lemma AgreesAfterClimb(lead: bool, parts: seq<string>, stack: seq<string>)
    requires parts != [] && parts[|parts| - 1] == ".." && stack == Reduce([], (if lead then [""] else []) + parts)
    ensures (if stack == [] then [""] else stack) == RfcParts([], parts)
            <==> stack == [] || (lead && Climbs(0, parts) == 0 && forall p | p in RemoveDots([], parts) :: p == "")
  {
    hide Reduce, RemoveDots, Climbs, RfcParts, Above;
    RfcAfterClimb(parts);
    ReducedIs(lead, parts);
    NoClimbsLeft([], parts);
    ClimbEnds(lead, Climbs(0, parts), RemoveDots([], parts), stack);
  }

  lemma RfcAfterClimb(parts: seq<string>)
    requires parts != [] && parts[|parts| - 1] == ".."
    ensures RfcParts([], parts) == RemoveDots([], parts) + [""]
  {
    hide RemoveDots, RfcParts;
    var n := |parts| - 1;
    assert parts == parts[..n] + [".."];
    RfcPartsSplit([], parts);
    RemoveDotsLast([], parts[..n], "..");
  }

  lemma ClimbEnds(lead: bool, c: nat, d: seq<string>, stack: seq<string>)
    requires ".." !in d
    requires stack == Fronted(lead, c, d)
    ensures (if stack == [] then [""] else stack) == d + [""] <==> stack == [] || (lead && c == 0 && forall p | p in d :: p == "")
  {
    ClimbingDiffers(d);
    ShiftedBy(d);
    assert Above(false) + d == d;
  }

  lemma ClimbingDiffers(d: seq<string>)
    requires ".." !in d
    ensures [".."] + d != d + [""] && d != d + [""]
    ensures d == [] ==> d + [""] == [""]
  {
    assert ([".."] + d)[0] == "..";
    assert d != [] ==> (d + [""])[0] == d[0] && d[0] in d;
    assert d == [] ==> (d + [""])[0] == "";
  }

  /** Moving an empty part from one end to the other changes nothing exactly when all parts are empty. */
  lemma {:induction false} ShiftedBy(d: seq<string>)
    ensures [""] + d == d + [""] <==> forall p | p in d :: p == ""
    decreases |d|
  {
    if d != [] {
      var a, b := [""] + d, d + [""];
      assert a[1..] == d && b[1..] == d[1..] + [""] && b[0] == d[0] && a[0] == "";
      assert d == [d[0]] + d[1..];
      ShiftedBy(d[1..]);
      if forall p | p in d :: p == "" {
        assert d[0] in d && forall p | p in d[1..] :: p in d;
        assert d == [""] + d[1..] == d[1..] + [""];
        assert a == b;
      }
      if a == b {
        assert d[0] == "" && d == d[1..] + [""];
        assert [""] + d[1..] == d[1..] + [""];
      }
    }
  }

  /** After anything but a dot segment. */
  lemma AgreesAfterName(lead: bool, parts: seq<string>, double: bool)
    requires parts != []
    requires var last := parts[|parts| - 1]; last != "." && last != ".." && (double ==> last == "")
    ensures var n := |parts| - 1;
            var stack := Reduce([], (if lead then [""] else []) + if parts[n] == "" && !double then parts[..n] else parts);
            var left := if stack == [] then [""] else if parts[n] == "" then stack + [""] else stack;
            left == RfcParts([], parts) <==> !double && Climbs(0, parts[..n]) % 2 == if lead then 1 else 0
  {
    hide Reduce, RemoveDots, Climbs, RfcParts, Above;
    var n := |parts| - 1;
    var front, last := parts[..n], parts[n];
    var d, c := RemoveDots([], front), Climbs(0, front);
    RfcAfterName(parts);
    if last == "" && !double {
      ReducedIs(lead, front);
      EmptyEnd(lead, c, d);
    } else {
      ReducedIs(lead, parts);
      NamedEnd(lead, c, d, last, double);
    }
  }

  lemma RfcAfterName(parts: seq<string>)
    requires parts != [] && parts[|parts| - 1] != "." && parts[|parts| - 1] != ".."
    ensures var n := |parts| - 1; var d := RemoveDots([], parts[..n]) + [parts[n]];
            RfcParts([], parts) == d && RemoveDots([], parts) == d && Climbs(0, parts) == Climbs(0, parts[..n])
  {
    hide RemoveDots, Climbs, RfcParts;
    var n := |parts| - 1;
    assert parts == parts[..n] + [parts[n]];
    RfcPartsSplit([], parts);
    RemoveDotsLast([], parts[..n], parts[n]);
    ClimbsLast(0, parts[..n], parts[n]);
  }

  /** The segments with what is in front of them. */
  function Fronted(lead: bool, c: nat, d: seq<string>): seq<string> {
    if !lead then Above(c % 2 == 1) + d else if c == 0 then [""] + d else Above(c % 2 == 0) + d
  }

  lemma EmptyEnd(lead: bool, c: nat, d: seq<string>)
    ensures var stack := Fronted(lead, c, d);
            (if stack == [] then [""] else stack + [""]) == d + [""] <==> c % 2 == if lead then 1 else 0
  {
    hide Fronted;
    LeadDiffers(lead, c, d, [""]);
    assert [] + [""] == [""];
  }

  lemma NamedEnd(lead: bool, c: nat, d: seq<string>, last: string, double: bool)
    requires last == "" ==> double
    ensures var stack := Fronted(lead, c, d + [last]);
            (if stack == [] then [""] else if last == "" then stack + [""] else stack) == d + [last]
            <==> last != "" && c % 2 == if lead then 1 else 0
  {
    hide Fronted;
    LeadDiffers(lead, c, d + [last], []);
  }

  /** What stands in front of the parts is nothing only if the count of climbs is right. */
  lemma LeadDiffers(lead: bool, c: nat, d: seq<string>, end: seq<string>)
    ensures var stack := Fronted(lead, c, d);
            && (stack == d <==> c % 2 == if lead then 1 else 0)
            && (stack + end == d + end <==> c % 2 == if lead then 1 else 0)
            && |stack| >= |d|
  {
    assert Above(false) + d == d;
    var stack := Fronted(lead, c, d);
    assert stack != d ==> |stack| == |d| + 1;
    assert |stack + end| == |stack| + |end| && |d + end| == |d| + |end|;
  }

  /** On whole paths, exactly. */
  lemma AgreesOnPathIff(path: string)
    requires |path| > 1 && path[0] == '/'
    ensures NormalPath(Segments(path), path) == RfcPath(path) <==> AgreesOnPath(path)
  {
    var parts := Split(path[1..]);
    assert parts != [];
    hide Split, Segments, Reduce, RfcPath, NormalPath, RfcParts, RemoveDots, Climbs, EndsInSlashDot;
    var n, lead := |parts| - 1, path[1] == '/';
    SamePathIffSameParts(path);
    SegmentsOfParts(path);
    if parts[n] == "." {
      RfcPartsSplit([], parts);
      NoDotsKept([], parts[..n]);
      assert [] + parts[..n] == parts[..n];
      SameFront(parts[..n], RemoveDots([], parts[..n]));
    } else if parts[n] == ".." {
      var stack := Reduce([], Segments(path));
      AgreesAfterClimb(lead, parts, stack);
      assert !DoubleAtEnd(path);
      assert LeftParts(path) == if stack == [] then [""] else stack;
      assert AgreesOnPath(path) <==> stack == [] || (lead && Climbs(0, parts) == 0 && forall p | p in RemoveDots([], parts) :: p == "");
    } else {
      AgreesAfterName(lead, parts, DoubleAtEnd(path));
    }
  }

  lemma SameFront(a: seq<string>, b: seq<string>)
    ensures a + [""] == b + [""] <==> a == b
  {
    assert (a + [""])[..|a|] == a && (b + [""])[..|b|] == b;
  }

  /** "/a/b/.." becomes "/a", where the RFC has "/a/". */
  lemma TrailingSlashLost()
    ensures NormalPath(Segments("/a/b/.."), "/a/b/..") == "/a" && RfcPath("/a/b/..") == "/a/"
  {
    hide Split, Join, Segments, Reduce, NormalPath, RfcPath, RfcParts;
    var path := "/a/b/..";
    TrailingSplit();
    SegmentsOfParts(path);
    TrailingParts();
    assert path[1..] == "a/b/.." && !EndsWithSlash(path) && !DoubleAtEnd(path);
    EndsTellLast(path);
    LeftPartsJoin(path);
    RfcPathJoins(path);
    TrailingJoins();
  }

  lemma TrailingSplit()
    ensures Split("a/b/..") == ["a", "b", ".."]
  {
    hide Split;
    assert "a" + "/" + "b/.." == "a/b/.." && "b" + "/" + ".." == "b/..";
    WholePart("..");
    SplitFirst("b", "..");
    SplitFirst("a", "b/..");
    assert ["a"] + (["b"] + [".."]) == ["a", "b", ".."];
  }

  lemma TrailingJoins()
    ensures "/" + Join(["a"]) == "/a" && "/" + Join(["a", ""]) == "/a/"
  {
    OnePart("a");
    JoinOfLast(["a"], "");
    assert ["a"] + [""] == ["a", ""];
    assert "a" + "/" + "" == "a/";
  }

  lemma TrailingParts()
    ensures Reduce([], [] + ["a", "b", ".."]) == ["a"] && RfcParts([], ["a", "b", ".."]) == ["a", ""]
  {
    var s := ["a", "b", ".."];
    assert [] + s == s && s[1..] == ["b", ".."] && ["b", ".."][1..] == [".."] && [".."][1..] == [];
    assert Push([], "a") == ["a"] && Push(["a"], "b") == ["a", "b"] && Push(["a", "b"], "..") == ["a"];
    assert Reduce(["a", "b"], [".."]) == Reduce(["a"], []) == ["a"];
    assert Reduce(["a"], ["b", ".."]) == Reduce(["a", "b"], [".."]);
    assert RfcParts(["a", "b"], [".."]) == Pop(["a", "b"]) + [""];
    assert RfcParts(["a"], ["b", ".."]) == RfcParts(["a"] + ["b"], [".."]);
    assert ["a"] + ["b"] == ["a", "b"] && [] + ["a"] == ["a"];
    assert RfcParts([], s) == RfcParts([] + ["a"], ["b", ".."]);
    assert Pop(["a", "b"]) == ["a"] && ["a"] + [""] == ["a", ""];
  }
}
