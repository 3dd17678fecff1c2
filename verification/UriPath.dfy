/**
 URIs with an authority, as the RDFa parser takes them apart, normalises their paths and spells them again.
 */
module UriPaths {
  import opened Helpers

  // Text --------------------------------------------------------------------------------------------------------------

  function IndexOf(s: string, c: char): (i: nat)
    ensures i <= |s| && c !in s[..i] && (i < |s| ==> s[i] == c)
    ensures forall k | 0 <= k < i :: s[k] != c
  {
    if s == [] || s[0] == c then 0 else 1 + IndexOf(s[1..], c)
  }

  function Split(s: string): (r: seq<string>)
    ensures r != []
    ensures forall p | p in r :: '/' !in p
    decreases |s|
  {
    var i := IndexOf(s, '/');
    if i == |s| then [s] else [s[..i]] + Split(s[i + 1..])
  }

  function Join(parts: seq<string>): string {
    if parts == [] then "" else if |parts| == 1 then parts[0] else parts[0] + "/" + Join(parts[1..])
  }

  lemma {:induction false} JoinOfSplit(s: string)
    ensures Join(Split(s)) == s
    decreases |s|
  {
    hide IndexOf;
    var i := IndexOf(s, '/');
    if i < |s| {
      JoinOfSplit(s[i + 1..]);
      JoinOfMore(s[..i], Split(s[i + 1..]));
      assert Split(s) == [s[..i]] + Split(s[i + 1..]);
      assert s == s[..i] + "/" + s[i + 1..];
    }
  }

  lemma JoinOfMore(first: string, parts: seq<string>)
    requires parts != []
    ensures Join([first] + parts) == first + "/" + Join(parts)
  {
    assert ([first] + parts)[1..] == parts;
  }

  /** Joining all but an empty last part, and the slash before it. */
  lemma {:induction false} JoinWithoutLast(parts: seq<string>)
    requires |parts| >= 2 && parts[|parts| - 1] == ""
    ensures Join(parts[..|parts| - 1]) + "/" == Join(parts)
    decreases |parts|
  {
    var front := parts[..|parts| - 1];
    if |parts| > 2 {
      JoinWithoutLast(parts[1..]);
      assert parts[1..][..|parts| - 2] == front[1..];
      assert Join(front) + "/" == parts[0] + "/" + (Join(front[1..]) + "/");
    } else {
      assert Join(parts[1..]) == "";
      assert Join(parts) == parts[0] + "/" + "";
    }
  }

  /** The last part of a text is the last part of what follows any slash in front. */
  lemma LastPart(s: string)
    requires IndexOf(s, '/') < |s|
    ensures var rest := Split(s[IndexOf(s, '/') + 1..]);
            Split(s) == [s[..IndexOf(s, '/')]] + rest && |Split(s)| >= 2 && Split(s)[|Split(s)| - 1] == rest[|rest| - 1]
  {
    hide IndexOf;
  }

  lemma WholePart(s: string)
    requires forall k | 0 <= k < |s| :: s[k] != '/'
    ensures Split(s) == [s]
  {
    hide IndexOf;
    assert s[..|s|] == s;
  }

  lemma {:induction false} SplitAtEnd(s: string)
    requires s != [] && s[|s| - 1] == '/'
    ensures |Split(s)| >= 2 && Split(s)[|Split(s)| - 1] == ""
    decreases |s|
  {
    hide IndexOf, Split;
    SlashInside(s, |s| - 1);
    var i := IndexOf(s, '/');
    LastPart(s);
    if i + 1 < |s| {
      SplitAtEnd(s[i + 1..]);
    } else {
      WholePart("");
    }
  }

  lemma SlashInside(s: string, k: nat)
    requires k < |s| && s[k] == '/'
    ensures IndexOf(s, '/') <= k
  {
    hide IndexOf;
  }

  // Dot segments --------------------------------------------------------------------------------------------------------

  /** One segment at a time, on what came of those before: ".." removes a segment, but is kept when there is none. */
  function Push(stack: seq<string>, segment: string): seq<string> {
    if segment == "." then stack
    else if segment == ".." && stack != [] then stack[..|stack| - 1]
    else stack + [segment]
  }

  function Reduce(stack: seq<string>, segments: seq<string>): seq<string>
    decreases |segments|
  {
    if segments == [] then stack else Reduce(Push(stack, segments[0]), segments[1..])
  }

  /** No "." anywhere, and no ".." but as the first segment. */
  predicate Normal(segments: seq<string>) {
    forall i | 0 <= i < |segments| :: segments[i] != "." && (segments[i] == ".." ==> i == 0)
  }

  lemma {:induction false} ReducedIsNormal(stack: seq<string>, segments: seq<string>)
    requires Normal(stack)
    ensures Normal(Reduce(stack, segments))
    decreases |segments|
  {
    if segments != [] {
      ReducedIsNormal(Push(stack, segments[0]), segments[1..]);
    }
  }

  lemma {:induction false} NormalIsReduced(stack: seq<string>, segments: seq<string>)
    requires Normal(stack + segments)
    ensures Reduce(stack, segments) == stack + segments
    decreases |segments|
  {
    if segments == [] {
      assert stack + [] == stack;
    } else {
      assert (stack + segments)[|stack|] == segments[0];
      assert Push(stack, segments[0]) == stack + [segments[0]];
      assert stack + [segments[0]] + segments[1..] == stack + segments;
      NormalIsReduced(Push(stack, segments[0]), segments[1..]);
    }
  }

  /** One segment more, kept or not. */
  lemma PushReduces(stack: seq<string>, segment: string, more: seq<string>)
    requires Normal(stack)
    ensures Normal(Push(stack, segment))
    ensures Reduce(stack, [segment] + more) == Reduce(Push(stack, segment), more)
  {
    assert ([segment] + more)[0] == segment && ([segment] + more)[1..] == more;
  }

  lemma NothingReduced(segments: seq<string>)
    ensures Normal(segments[..0]) && Reduce(segments[..0], segments[0..]) == Reduce([], segments)
  {
    assert segments[..0] == [] && segments[0..] == segments;
  }

  lemma AllReduced(segments: seq<string>, i: nat)
    requires i == |segments|
    ensures segments[..i] == segments && Reduce(segments[..i], segments[i..]) == segments
  {
    assert segments[..i] == segments && segments[i..] == [];
  }

  lemma Around(segments: seq<string>, stack: seq<string>, more: seq<string>)
    requires segments == stack + more
    ensures segments[..|stack|] == stack && segments[|stack|..] == more
  {
  }

  /** Reducing a second time changes nothing. */
  lemma ReduceIsIdempotent(segments: seq<string>)
    ensures Reduce([], Reduce([], segments)) == Reduce([], segments)
  {
    ReducedIsNormal([], segments);
    assert [] + Reduce([], segments) == Reduce([], segments);
    NormalIsReduced([], Reduce([], segments));
  }

  /** Section 5.2.4 of RFC 3986 on a list of segments: a ".." with nothing to remove is dropped. */
  function RemoveDots(stack: seq<string>, segments: seq<string>): seq<string>
    decreases |segments|
  {
    if segments == [] then stack
    else if segments[0] == "." then RemoveDots(stack, segments[1..])
    else if segments[0] == ".." then RemoveDots(if stack == [] then [] else stack[..|stack| - 1], segments[1..])
    else RemoveDots(stack + [segments[0]], segments[1..])
  }

  /** How many times ".." would climb above the root, `depth` segments below it. */
  function Climbs(depth: nat, segments: seq<string>): nat
    decreases |segments|
  {
    if segments == [] then 0
    else if segments[0] == "." then Climbs(depth, segments[1..])
    else if segments[0] != ".." then Climbs(depth + 1, segments[1..])
    else if depth == 0 then 1 + Climbs(0, segments[1..])
    else Climbs(depth - 1, segments[1..])
  }

  /** The parser keeps every other ".." that climbs above the root. */
  lemma {:induction false} ReduceAgainstRfc(stack: seq<string>, segments: seq<string>, odd: bool)
    ensures var kept := (Climbs(|stack|, segments) % 2 == 1) != odd;
            Reduce(Above(odd) + stack, segments) == Above(kept) + RemoveDots(stack, segments)
    decreases |segments|
  {
    if segments != [] {
      var s, more := segments[0], segments[1..];
      Dots();
      if s == "." {
        ReduceAgainstRfc(stack, more, odd);
      } else if s != ".." {
        assert Above(odd) + stack + [s] == Above(odd) + (stack + [s]);
        ReduceAgainstRfc(stack + [s], more, odd);
      } else if stack == [] {
        assert Push(Above(odd) + [], s) == Above(!odd) + [];
        ReduceAgainstRfc([], more, !odd);
      } else {
        var shorter := stack[..|stack| - 1];
        assert Push(Above(odd) + stack, s) == Above(odd) + shorter;
        ReduceAgainstRfc(shorter, more, odd);
      }
    }
  }

  lemma Dots()
    ensures "." != ".."
  {
  }

  function Above(odd: bool): seq<string> {
    if odd then [".."] else []
  }

  /** The parser's segments are those of the RFC exactly when ".." climbs above the root an even number of times. */
  lemma AgreesWithRfcIff(segments: seq<string>)
    ensures Reduce([], segments) == RemoveDots([], segments) <==> Climbs(0, segments) % 2 == 0
    ensures Climbs(0, segments) % 2 == 1 ==> Reduce([], segments) == [".."] + RemoveDots([], segments)
  {
    hide Reduce, RemoveDots, Climbs;
    ReduceAgainstRfc([], segments, false);
    var rfc := RemoveDots([], segments);
    assert Above(false) + [] == [];
    assert Above(false) + rfc == rfc;
    assert |[".."] + rfc| == 1 + |rfc|;
  }

  // Paths ---------------------------------------------------------------------------------------------------------------

  predicate EndsWithSlash(path: string) {
    path != [] && path[|path| - 1] == '/'
  }

  /** The segments of a path; an empty first or last one is dropped where a single slash makes it. */
  function Segments(path: string): seq<string> {
    if path == "/" || path == "" then []
    else
      var parts := Split(path);
      var shifted := if parts[0] == "" && |path| > 1 && path[1] != '/' then parts[1..] else parts;
      if shifted != [] && EndsWithSlash(path) && shifted[|shifted| - 1] == "" && |path| > 1 && path[|path| - 2] != '/'
      then shifted[..|shifted| - 1]
      else shifted
  }

  predicate EndsInSlashDot(path: string) {
    |path| > 1 && path[|path| - 2..] == "/."
  }

  /** A path written from its segments; `like` is the path it replaces. */
  function Spelled(segments: seq<string>, like: string): string {
    if segments == [] then "/" else "/" + Join(segments) + if EndsWithSlash(like) then "/" else ""
  }

  /** The path that normalisation leaves. */
  function NormalPath(segments: seq<string>, path: string): string {
    if segments == [] then path
    else if EndsInSlashDot(path) then path[..|path| - 1]
    else Spelled(Reduce([], segments), path)
  }

  predicate DoubleSlashAtEnds(path: string) {
    |path| >= 2 && (path[..2] == "//" || path[|path| - 2..] == "//")
  }

  /** The segments before an empty last one is considered. */
  function Shifted(path: string): seq<string> {
    if Split(path)[0] == "" && |path| > 1 && path[1] != '/' then Split(path)[1..] else Split(path)
  }

  lemma ShiftedText(path: string)
    requires |path| > 1 && path[0] == '/'
    ensures Shifted(path) != [] && Join(Shifted(path)) == if path[1] != '/' then path[1..] else path
    ensures EndsWithSlash(path) ==> |Shifted(path)| >= 2 && Shifted(path)[|Shifted(path)| - 1] == ""
  {
    hide IndexOf, Split, Join;
    SplitFirst("", path[1..]);
    assert path == "" + "/" + path[1..];
    assert Split(path)[1..] == Split(path[1..]);
    JoinOfSplit(path);
    JoinOfSplit(path[1..]);
    if EndsWithSlash(path) {
      SplitAtEnd(if path[1] != '/' then path[1..] else path);
    }
  }

  lemma SegmentsFromShifted(path: string)
    requires |path| > 1 && path[0] == '/'
    ensures var s := Shifted(path);
            Segments(path) == if s != [] && EndsWithSlash(path) && s[|s| - 1] == "" && path[|path| - 2] != '/'
                              then s[..|s| - 1] else s
  {
  }

  lemma SlashBefore(path: string)
    requires |path| > 1 && path[0] == '/'
    ensures "/" + path[1..] == path
    ensures "/" + path != path && "/" + path + "/" != path && "/" + path[1..] + "/" != path
  {
    assert |"/" + path| == |path| + 1;
    assert |"/" + path + "/"| == |path| + 2;
    assert |"/" + path[1..] + "/"| == |path| + 1;
  }

  /** Spelling a path from its own segments gives it back unless it starts or ends with two slashes. */
  lemma SpelledIff(path: string)
    requires |path| > 1 && path[0] == '/'
    ensures Segments(path) != []
    ensures Spelled(Segments(path), path) == path <==> !DoubleSlashAtEnds(path)
  {
    hide Segments, Shifted, Join, DoubleSlashAtEnds;
    ShiftedText(path);
    SegmentsFromShifted(path);
    SlashBefore(path);
    var s := Shifted(path);
    var text := if path[1] != '/' then path[1..] else path;
    DoubleSlashes(path);
    if EndsWithSlash(path) {
      JoinWithoutLast(s);
      if path[|path| - 2] != '/' {
        assert Spelled(s[..|s| - 1], path) == "/" + (Join(s[..|s| - 1]) + "/") == "/" + text;
      } else {
        assert Spelled(s, path) == "/" + text + "/";
      }
    } else {
      assert "/" + text + "" == "/" + text;
    }
  }

  lemma DoubleSlashes(path: string)
    requires |path| > 1 && path[0] == '/'
    ensures DoubleSlashAtEnds(path) <==> path[1] == '/' || (EndsWithSlash(path) && path[|path| - 2] == '/')
  {
    assert path[..2] == [path[0], path[1]] && path[|path| - 2..] == [path[|path| - 2], path[|path| - 1]];
  }

  /**
   A path whose segments are already normal is kept by normalisation, unless it starts or ends with two
   slashes: then it grows.
   */
  lemma NormalPathKeptIff(path: string)
    requires path == "" || path[0] == '/'
    requires Normal(Segments(path))
    ensures NormalPath(Segments(path), path) == path <==> !DoubleSlashAtEnds(path) && !EndsInSlashDot(path)
  {
    if |path| > 1 {
      SpelledIff(path);
      if !EndsInSlashDot(path) {
        NormalIsReduced([], Segments(path));
        assert [] + Segments(path) == Segments(path);
      }
    }
  }

  // A parsed URI --------------------------------------------------------------------------------------------------------

  predicate SchemeStart(c: char) {
    'A' <= c <= 'Z' || 'a' <= c <= 'z'
  }

  /** The escapes in the expression's source are lost in its string, which leaves a range from '+' to '.'. */
  predicate SchemeChar(c: char) {
    SchemeStart(c) || '0' <= c <= '9' || '+' <= c <= '.'
  }

  /** The length of the scheme, when there is one. */
  function SchemeLength(uri: string): (n: Option<nat>)
    ensures n.Some? ==> 0 < n.value < |uri| && uri[n.value] == ':'
  {
    var i := IndexOf(uri, ':');
    if 0 < i < |uri| && SchemeStart(uri[0]) && (forall k | 0 <= k < i :: SchemeChar(uri[k])) then Some(i) else None
  }

  function Prefixed(mark: string, part: Option<string>): string {
    if part.Some? then mark + part.value else ""
  }

  datatype UriParts = UriParts(scheme: string, authority: string, path: string, query: Option<string>, fragment: Option<string>)

  function Specific(p: UriParts): string {
    "//" + p.authority + p.path + Prefixed("?", p.query) + Prefixed("#", p.fragment)
  }

  function From(s: string, i: nat): Option<string> {
    if i < |s| then Some(s[i + 1..]) else None
  }

  function PartsOf(scheme: string, specific: string): UriParts
    requires |specific| >= 2
  {
    var work := specific[2..];
    var p := IndexOf(work, '/');
    var h := IndexOf(work[p..], '#');
    var beforeHash := work[p..][..h];
    var q := IndexOf(beforeHash, '?');
    UriParts(scheme, work[..p], beforeHash[..q], From(beforeHash, q), From(work[p..], h))
  }

  lemma CutAt(s: string, i: nat, c: char)
    requires i <= |s| && (i < |s| ==> s[i] == c)
    ensures s == s[..i] + Prefixed([c], From(s, i))
  {
  }

  /** Taking a URI apart and spelling it again gives it back. */
  lemma PartsSpellUri(scheme: string, specific: string)
    requires |specific| >= 2 && specific[..2] == "//"
    ensures Specific(PartsOf(scheme, specific)) == specific
    ensures var path := PartsOf(scheme, specific).path; path == "" || path[0] == '/'
  {
    hide IndexOf;
    var work := specific[2..];
    var p := IndexOf(work, '/');
    PathSpells(scheme, specific, p);
    var u := PartsOf(scheme, specific);
    SpecificRegrouped(u);
    assert specific == "//" + (work[..p] + work[p..]);
    assert "//" + (u.authority + work[p..]) == "//" + u.authority + work[p..];
  }

  lemma SpecificRegrouped(u: UriParts)
    ensures Specific(u) == "//" + u.authority + (u.path + Prefixed("?", u.query) + Prefixed("#", u.fragment))
  {
  }

  lemma PathSpells(scheme: string, specific: string, p: nat)
    requires |specific| >= 2 && p == IndexOf(specific[2..], '/')
    ensures var u := PartsOf(scheme, specific);
            && u.path + Prefixed("?", u.query) + Prefixed("#", u.fragment) == specific[2..][p..]
            && (u.path == "" || u.path[0] == '/')
  {
    hide IndexOf, Prefixed;
    var rest := specific[2..][p..];
    var h := IndexOf(rest, '#');
    var q := IndexOf(rest[..h], '?');
    CutAt(rest, h, '#');
    CutAt(rest[..h], q, '?');
  }

  lemma IndexIs(s: string, n: nat, c: char)
    requires n <= |s| && c !in s[..n] && (n < |s| ==> s[n] == c)
    ensures IndexOf(s, c) == n
  {
    if IndexOf(s, c) < n {
      InPrefix(s, IndexOf(s, c), n);
    }
  }

  lemma InPrefix(s: string, i: nat, n: nat)
    requires i < n <= |s|
    ensures s[i] in s[..n]
  {
    assert s[..n][i] == s[i];
  }

  /** The first slash ends the authority, the first '#' after it the path and the query, the first '?' between them the path. */
  predicate CutInOrder(u: UriParts) {
    && '/' !in u.authority
    && '?' !in u.path && '#' !in u.path && (u.path == "" || u.path[0] == '/')
    && (u.query.Some? ==> '#' !in u.query.value)
    && (u.path == "" ==> u.query.None? && u.fragment.None?)
  }

  /** These are the parts that are cut, and the only ones that spell the text. */
  lemma PartsOfIff(scheme: string, specific: string, u: UriParts)
    requires |specific| >= 2 && specific[..2] == "//"
    ensures PartsOf(scheme, specific) == u <==> u.scheme == scheme && CutInOrder(u) && Specific(u) == specific
  {
    if PartsOf(scheme, specific) == u {
      PartsSpellUri(scheme, specific);
      PartsInOrder(scheme, specific);
    }
    if u.scheme == scheme && CutInOrder(u) && Specific(u) == specific {
      PartsAreThese(u);
    }
  }

  lemma PartsInOrder(scheme: string, specific: string)
    requires |specific| >= 2 && specific[..2] == "//"
    ensures CutInOrder(PartsOf(scheme, specific))
  {
    hide IndexOf;
    var work := specific[2..];
    var p := IndexOf(work, '/');
    assert work[..p] <= work && '/' !in work[..p];
    var rest := work[p..];
    var h := IndexOf(rest, '#');
    var beforeHash := rest[..h];
    var q := IndexOf(beforeHash, '?');
    assert '#' !in beforeHash && '?' !in beforeHash[..q];
    assert forall c | c in beforeHash[..q] :: c in beforeHash;
    assert forall c | c in beforeHash[q..] :: c in beforeHash;
    assert q < |beforeHash| ==> forall c | c in beforeHash[q + 1..] :: c in beforeHash;
  }

  lemma PartsAreThese(u: UriParts)
    requires CutInOrder(u)
    ensures PartsOf(u.scheme, Specific(u)) == u
  {
    hide IndexOf, Prefixed, From, Specific, CutInOrder;
    AuthorityEnds(u);
    NoPathNothing(u);
    MarkedPart(u.path, '?', u.query);
    MarkedPart(u.path + Prefixed("?", u.query), '#', u.fragment);
  }

  lemma AuthorityEnds(u: UriParts)
    requires CutInOrder(u)
    ensures |Specific(u)| >= 2
    ensures var work, n := Specific(u)[2..], |u.authority|;
            && IndexOf(work, '/') == n && work[..n] == u.authority
            && work[n..] == u.path + Prefixed("?", u.query) + Prefixed("#", u.fragment)
  {
    hide IndexOf, Prefixed;
    var work, n := Specific(u)[2..], |u.authority|;
    var rest := u.path + Prefixed("?", u.query) + Prefixed("#", u.fragment);
    SpecificRegrouped(u);
    assert work == u.authority + rest && work[..n] == u.authority && work[n..] == rest;
    NoPathNothing(u);
    IndexIs(work, n, '/');
  }

  /** Where a part without the mark ends, and what comes after the mark. */
  lemma MarkedPart(part: string, mark: char, more: Option<string>)
    requires mark !in part
    ensures var s := part + Prefixed([mark], more);
            IndexOf(s, mark) == |part| && s[..|part|] == part && From(s, |part|) == more
  {
    var s := part + Prefixed([mark], more);
    assert s[..|part|] == part;
    IndexIs(s, |part|, mark);
    if more.Some? {
      assert s[|part| + 1..] == more.value;
    }
  }

  lemma NoPathNothing(u: UriParts)
    requires CutInOrder(u)
    ensures var rest := u.path + Prefixed("?", u.query) + Prefixed("#", u.fragment); rest == "" || rest[0] == '/'
    ensures '#' !in u.path + Prefixed("?", u.query) && '?' !in u.path
  {
  }

  /** A scheme is a letter and then letters, digits, plus, comma, hyphen and point, up to the first colon. */
  lemma SchemeIs(uri: string, n: nat)
    ensures SchemeLength(uri) == Some(n) <==>
              && 0 < n < |uri| && uri[n] == ':'
              && ('a' <= uri[0] <= 'z' || 'A' <= uri[0] <= 'Z')
              && forall k | 0 <= k < n ::
                   'a' <= uri[k] <= 'z' || 'A' <= uri[k] <= 'Z' || '0' <= uri[k] <= '9'
                   || uri[k] == '+' || uri[k] == ',' || uri[k] == '-' || uri[k] == '.'
  {
    if 0 < n < |uri| && uri[n] == ':' && forall k | 0 <= k < n :: SchemeChar(uri[k]) {
      IndexIs(uri, n, ':');
    }
  }

  class ParsedUri {
    var spec: string
    var scheme: string
    var schemeSpecificPart: string
    var isGeneric: bool
    var authority: string
    var path: string
    var query: Option<string>
    var fragment: Option<string>
    var segments: seq<string>

    ghost function Parts(): UriParts
      reads this
    {
      UriParts(scheme, authority, path, query, fragment)
    }

    /** The parsed fields and the text say the same. */
    ghost predicate Valid()
      reads this
    {
      && spec == scheme + ":" + schemeSpecificPart
      && (isGeneric ==>
          && schemeSpecificPart == Specific(Parts())
          && (path == "" || path[0] == '/'))
    }

    constructor (uri: string, n: nat)
      requires SchemeLength(uri) == Some(n)
      ensures Valid() && spec == uri && scheme == uri[..n]
      ensures isGeneric <==> n + 2 < |uri| && uri[n + 1] == '/' && uri[n + 2] == '/'
      ensures isGeneric ==> Parts() == PartsOf(uri[..n], uri[n + 1..]) && segments == Segments(path)
    {
      spec, scheme, schemeSpecificPart := uri, uri[..n], uri[n + 1..];
      isGeneric, authority, path, query, fragment, segments := false, "", "", None, None, [];
      new;
      assert uri == uri[..n] + ":" + uri[n + 1..];
      if n + 2 < |uri| && uri[n + 1] == '/' && uri[n + 2] == '/' {
        ParseGeneric();
      }
    }

    method ParseGeneric()
      requires |schemeSpecificPart| >= 2 && schemeSpecificPart[..2] == "//" && query.None? && fragment.None?
      requires spec == scheme + ":" + schemeSpecificPart
      modifies this`authority, this`path, this`query, this`fragment, this`segments, this`isGeneric
      ensures isGeneric && Valid() && Parts() == PartsOf(scheme, schemeSpecificPart) && segments == Segments(path)
    {
      hide IndexOf, Specific, Segments;
      var work := schemeSpecificPart[2..];
      var pathStart := IndexOf(work, '/');
      authority := work[..pathStart];
      path := work[pathStart..];
      var hash := IndexOf(path, '#');
      ghost var beforeHash := path[..hash];
      if hash < |path| {
        fragment := Some(path[hash + 1..]);
        path := path[..hash];
      }
      assert path == beforeHash;
      var questionMark := IndexOf(path, '?');
      if questionMark < |path| {
        query := Some(path[questionMark + 1..]);
        path := path[..questionMark];
      }
      assert path == beforeHash[..IndexOf(beforeHash, '?')];
      assert Parts() == PartsOf(scheme, schemeSpecificPart);
      SplitPath();
      isGeneric := true;
      PartsSpellUri(scheme, schemeSpecificPart);
    }

    method SplitPath()
      modifies this`segments
      ensures segments == Segments(path)
    {
      hide Split;
      if path == "/" || path == "" {
        segments := [];
      } else {
        segments := Split(path);
        if |segments| > 0 && segments[0] == "" && |path| > 1 && path[1] != '/' {
          segments := segments[1..];
        }
        if |segments| > 0 && |path| > 0 && path[|path| - 1] == '/' && segments[|segments| - 1] == "" {
          if |path| > 1 && path[|path| - 2] != '/' {
            segments := segments[..|segments| - 1];
          }
        }
      }
    }

    /** The splicing loop: the index moves back over what it has removed. */
    method RemoveDotSegments()
      modifies this`segments
      ensures segments == Reduce([], old(segments)) && Normal(segments)
    {
      hide Reduce, Normal;
      var i := 0;
      NothingReduced(segments);
      while i < |segments|
        invariant 0 <= i <= |segments|
        invariant Normal(segments[..i])
        invariant Reduce(segments[..i], segments[i..]) == Reduce([], old(segments))
        decreases |segments| - i
      {
        ghost var stack, segment, more := segments[..i], segments[i], segments[i + 1..];
        assert segments[i..] == [segment] + more;
        PushReduces(stack, segment, more);
        if i > 0 && segments[i] == ".." {
          segments := segments[..i - 1] + segments[i + 1..];
          Around(segments, stack[..i - 1], more);
          i := i - 2;
        }
        if 0 <= i && segments[i] == "." {
          segments := segments[..i] + segments[i + 1..];
          Around(segments, stack, more);
          i := i - 1;
        }
        i := i + 1;
        assert segments == Push(stack, segment) + more && i == |Push(stack, segment)|;
        Around(segments, Push(stack, segment), more);
      }
      AllReduced(segments, i);
    }

    method Rewrite()
      requires isGeneric && (path == "" || path[0] == '/')
      modifies this`schemeSpecificPart, this`spec
      ensures Valid()
    {
      schemeSpecificPart := "//" + authority + path;
      if query.Some? {
        schemeSpecificPart := schemeSpecificPart + "?" + query.value;
      }
      if fragment.Some? {
        schemeSpecificPart := schemeSpecificPart + "#" + fragment.value;
      }
      assert schemeSpecificPart == Specific(Parts()) by { Regroup(Parts(), schemeSpecificPart); }
      spec := scheme + ":" + schemeSpecificPart;
    }

    /** Only the path changes, and the text with it. */
    method Normalize()
      requires Valid()
      modifies this`segments, this`path, this`schemeSpecificPart, this`spec
      ensures Valid()
      ensures !isGeneric ==> spec == old(spec) && path == old(path) && segments == old(segments)
      ensures isGeneric ==> Parts() == old(Parts()).(path := NormalPath(old(segments), old(path)))
      ensures isGeneric && (old(segments) == [] || !EndsInSlashDot(old(path))) ==>
                segments == Reduce([], old(segments)) && Normal(segments)
      ensures isGeneric && old(segments) != [] && EndsInSlashDot(old(path)) ==>
                segments == old(segments)[..|old(segments)| - 1]
    {
      if !isGeneric {
        return;
      }
      if |segments| == 0 {
        return;
      }
      if |path| > 1 && path[|path| - 2..] == "/." {
        path := path[..|path| - 1];
        segments := segments[..|segments| - 1];
        Rewrite();
        return;
      }
      var end := if path != "" && path[|path| - 1] == '/' then "/" else "";
      RemoveDotSegments();
      path := if |segments| == 0 then "/" else "/" + Join(segments) + end;
      Rewrite();
    }
  }

  lemma Regroup(p: UriParts, text: string)
    requires text == (("//" + p.authority + p.path) + (if p.query.Some? then "?" + p.query.value else ""))
                     + (if p.fragment.Some? then "#" + p.fragment.value else "")
    ensures text == Specific(p)
  {
  }

  /** After a final "/." only that is removed: what is left is the normal form exactly if it was normal before. */
  lemma DotsLeftIff(path: string)
    requires EndsInSlashDot(path)
    ensures Segments(path) != []
    ensures var left := Segments(path)[..|Segments(path)| - 1];
            left == Reduce([], Segments(path)) <==> Normal(left)
  {
    hide Reduce, Normal, Split, Segments;
    LastIsDot(path);
    var left := Segments(path)[..|Segments(path)| - 1];
    assert Segments(path) == left + ["."];
    DotReduced([], left);
    EmptyIsNormal();
    ReducedIsNormal([], left);
    if Normal(left) {
      assert [] + left == left;
      NormalIsReduced([], left);
    }
  }

  lemma EmptyIsNormal()
    ensures Normal([])
  {
  }

  lemma {:induction false} DotReduced(stack: seq<string>, segments: seq<string>)
    ensures Reduce(stack, segments + ["."]) == Reduce(stack, segments)
    decreases |segments|
  {
    if segments == [] {
      assert segments + ["."] == ["."];
      assert Reduce(Push(stack, "."), ["."][1..]) == stack;
    } else {
      assert (segments + ["."])[1..] == segments[1..] + ["."];
      DotReduced(Push(stack, segments[0]), segments[1..]);
    }
  }

  lemma LastIsDot(path: string)
    requires EndsInSlashDot(path)
    ensures Segments(path) != [] && Segments(path)[|Segments(path)| - 1] == "."
  {
    hide Split;
    DotAtEnd(path);
    assert path[|path| - 2..][1] == '.';
  }

  lemma {:induction false} DotAtEnd(s: string)
    requires EndsInSlashDot(s)
    ensures |Split(s)| >= 2 && Split(s)[|Split(s)| - 1] == "."
    decreases |s|
  {
    hide IndexOf, Split;
    var n := |s| - 2;
    assert s[n] == s[n..][0] == '/' && s[n + 1] == s[n..][1] == '.';
    SlashInside(s, n);
    LastPart(s);
    var rest := s[IndexOf(s, '/') + 1..];
    if IndexOf(s, '/') == n {
      assert rest == ".";
      WholePart(".");
    } else {
      assert rest[|rest| - 2..] == "/.";
      DotAtEnd(rest);
    }
  }

  lemma SplitFirst(part: string, rest: string)
    requires forall k | 0 <= k < |part| :: part[k] != '/'
    ensures Split(part + "/" + rest) == [part] + Split(rest)
  {
    hide IndexOf;
    var s := part + "/" + rest;
    assert s[|part|] == '/';
    SlashInside(s, |part|);
    assert forall k | 0 <= k < |part| :: s[k] == part[k];
    assert s[..|part|] == part && s[|part| + 1..] == rest;
  }

  lemma ClimbingParts()
    ensures Split("/../../.") == ["", "..", "..", "."]
  {
    hide Split;
    WholePart(".");
    SplitFirst("..", ".");
    SplitFirst("..", "../.");
    SplitFirst("", "../../.");
    assert ".." + "/" + "." == "../." && ".." + "/" + "../." == "../../." && "" + "/" + "../../." == "/../../.";
    assert [""] + ([".."] + ([".."] + ["."])) == ["", "..", "..", "."];
  }

  lemma ClimbingReduced()
    ensures Reduce([], ["..", "..", "."]) == [] && !Normal(["..", ".."])
  {
    assert ["..", "..", "."][1..] == ["..", "."] && ["..", "."][1..] == ["."] && ["."][1..] == [];
    assert Push([], "..") == [".."] && Push([".."], "..") == [];
    assert Reduce([], ["."]) == Reduce([], []) == [];
    assert Reduce([".."], ["..", "."]) == Reduce([], ["."]);
    assert ["..", ".."][1] == "..";
  }

  /** A path where dots are left: the normal form of "/../../." has no segments, but two ".." stay. */
  lemma DotsRemain()
    ensures var path := "/../../.";
            && EndsInSlashDot(path) && Segments(path) == ["..", "..", "."]
            && NormalPath(Segments(path), path) == "/../../" && !Normal(Segments(path)[..2])
            && Reduce([], Segments(path)) == []
  {
    hide Split, Reduce, Normal;
    var path := "/../../.";
    ClimbingParts();
    ClimbingReduced();
    assert ["", "..", "..", "."][1..] == ["..", "..", "."] && ["..", "..", "."][..2] == ["..", ".."];
    assert path[..|path| - 1] == "/../../" && path[|path| - 2..] == "/.";
  }

  /** Where one-pass reduction and the RFC part: one ".." above the root stays, two cancel. */
  lemma ClimbingExample()
    ensures Reduce([], ["..", "a"]) == ["..", "a"] && RemoveDots([], ["..", "a"]) == ["a"]
    ensures Reduce([], ["..", "..", "a"]) == ["a"] == RemoveDots([], ["..", "..", "a"])
  {
    assert Reduce([".."], ["a"]) == ["..", "a"];
    assert RemoveDots([], ["a"]) == ["a"];
    assert Reduce([], ["a"]) == ["a"];
  }
}
