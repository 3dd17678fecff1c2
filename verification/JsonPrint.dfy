/** The texts that print JSON values, with any white space and any escapes, and what parsing makes of them. */
module JsonPrint {
  import opened JsonText

  /** One character of a printed string. */
  datatype Piece =
    | Plain(u: Unit)
    | Escaped(c: Unit)
    | Hex(a: Unit, b: Unit, c: Unit, d: Unit)

  /** The parts of a printed number (section 6 of RFC 8259; leading zeros are allowed here). */
  datatype NumberText = NumberText(negative: bool, whole: Text, hasFraction: bool, fraction: Text,
                                   hasExponent: bool, mark: Unit, sign: Text, exponent: Text)

  /** A printed value, white space included. */
  datatype Doc =
    | NullDoc
    | BoolDoc(b: bool)
    | NumDoc(n: NumberText)
    | StrDoc(pieces: seq<Piece>)
    | EmptyArr(inner: Text)
    | ArrDoc(before: Text, items: Items)
    | EmptyObj(inner: Text)
    | ObjDoc(before: Text, members: Members)

  datatype Items =
    | LastItem(v: Doc, after: Text)
    | MoreItems(v: Doc, after: Text, before: Text, rest: Items)

  datatype Member = Member(key: seq<Piece>, afterKey: Text, beforeValue: Text, v: Doc, after: Text)

  datatype Members =
    | LastMember(m: Member)
    | MoreMembers(m: Member, before: Text, rest: Members)

  // Well-formed texts -----------------------------------------------------------------------------------

  predicate White(ws: Text) {
    forall u | u in ws :: IsWhite(u)
  }

  predicate Digits(s: Text) {
    forall u | u in s :: IsDigit(u)
  }

  predicate GoodPiece(p: Piece) {
    match p
    case Plain(u) => u != QUOTE && u != BACKSLASH
    case Escaped(c) => Escapee(c) != END
    case Hex(a, b, c, d) => HexValue(a) >= 0 && HexValue(b) >= 0 && HexValue(c) >= 0 && HexValue(d) >= 0
  }

  predicate GoodString(pieces: seq<Piece>) {
    forall p | p in pieces :: GoodPiece(p)
  }

  predicate GoodNumber(n: NumberText) {
    && Digits(n.whole) && n.whole != []
    && (n.hasFraction ==> Digits(n.fraction) && n.fraction != [])
    && (n.hasExponent ==> IsExponentMark(n.mark) && (n.sign == [] || n.sign == [PLUS] || n.sign == [MINUS])
                          && Digits(n.exponent) && n.exponent != [])
  }

  predicate Good(d: Doc) {
    match d
    case NullDoc => true
    case BoolDoc(_) => true
    case NumDoc(n) => GoodNumber(n)
    case StrDoc(pieces) => GoodString(pieces)
    case EmptyArr(inner) => White(inner)
    case ArrDoc(before, items) => White(before) && GoodItems(items)
    case EmptyObj(inner) => White(inner)
    case ObjDoc(before, members) => White(before) && GoodMembers(members)
  }

  predicate GoodItems(items: Items) {
    Good(items.v) && White(items.after) && (items.MoreItems? ==> White(items.before) && GoodItems(items.rest))
  }

  predicate GoodMember(m: Member) {
    GoodString(m.key) && White(m.afterKey) && White(m.beforeValue) && Good(m.v) && White(m.after)
  }

  predicate GoodMembers(ms: Members) {
    GoodMember(ms.m) && (ms.MoreMembers? ==> White(ms.before) && GoodMembers(ms.rest))
  }

  // Printing ------------------------------------------------------------------------------------------------

  function PieceText(p: Piece): Text {
    match p
    case Plain(u) => [u]
    case Escaped(c) => [BACKSLASH, c]
    case Hex(a, b, c, d) => [BACKSLASH, LOWER_U, a, b, c, d]
  }

  function CharsText(pieces: seq<Piece>): Text {
    if pieces == [] then [] else PieceText(pieces[0]) + CharsText(pieces[1..])
  }

  function StringText(pieces: seq<Piece>): Text {
    [QUOTE] + CharsText(pieces) + [QUOTE]
  }

  function NumText(n: NumberText): Text {
    SignText(n) + n.whole + FractionText(n) + ExponentText(n)
  }

  function SignText(n: NumberText): Text {
    if n.negative then [MINUS] else []
  }

  function FractionText(n: NumberText): Text {
    if n.hasFraction then [DOT] + n.fraction else []
  }

  function ExponentText(n: NumberText): Text {
    if n.hasExponent then [n.mark] + n.sign + n.exponent else []
  }

  function Print(d: Doc): Text {
    match d
    case NullDoc => NULL
    case BoolDoc(b) => if b then TRUE else FALSE
    case NumDoc(n) => NumText(n)
    case StrDoc(pieces) => StringText(pieces)
    case EmptyArr(inner) => [OPEN_ARRAY] + inner + [CLOSE_ARRAY]
    case ArrDoc(before, items) => [OPEN_ARRAY] + before + PrintItems(items) + [CLOSE_ARRAY]
    case EmptyObj(inner) => [OPEN_OBJECT] + inner + [CLOSE_OBJECT]
    case ObjDoc(before, members) => [OPEN_OBJECT] + before + PrintMembers(members) + [CLOSE_OBJECT]
  }

  function PrintItems(items: Items): Text {
    match items
    case LastItem(v, after) => Print(v) + after
    case MoreItems(v, after, before, rest) => Print(v) + after + [COMMA] + before + PrintItems(rest)
  }

  function PrintMember(m: Member): Text {
    StringText(m.key) + m.afterKey + [COLON] + m.beforeValue + Print(m.v) + m.after
  }

  function PrintMembers(ms: Members): Text {
    match ms
    case LastMember(m) => PrintMember(m)
    case MoreMembers(m, before, rest) => PrintMember(m) + [COMMA] + before + PrintMembers(rest)
  }

  // Meaning ---------------------------------------------------------------------------------------------------

  function PieceValue(p: Piece): Unit
    requires GoodPiece(p)
  {
    match p
    case Plain(u) => u
    case Escaped(c) => Escapee(c)
    case Hex(a, b, c, d) => ((HexValue(a) * 16 + HexValue(b)) * 16 + HexValue(c)) * 16 + HexValue(d)
  }

  function CharsValue(pieces: seq<Piece>): Text
    requires GoodString(pieces)
  {
    if pieces == [] then [] else [PieceValue(pieces[0])] + CharsValue(pieces[1..])
  }

  /** What a text stands for, or the first key in it that an object repeats. */
  datatype Reading = Fine(value: Json) | Repeated(key: Text)

  function Meaning(d: Doc): Reading
    requires Good(d)
  {
    match d
    case NullDoc => Fine(Null)
    case BoolDoc(b) => Fine(Bool(b))
    case NumDoc(n) => Fine(Num(NumText(n)))
    case StrDoc(pieces) => Fine(Str(CharsValue(pieces)))
    case EmptyArr(_) => Fine(Arr([]))
    case ArrDoc(_, items) => ItemsMeaning(items, [])
    case EmptyObj(_) => Fine(Obj(EMPTY))
    case ObjDoc(_, members) => MembersMeaning(members, EMPTY)
  }

  function ItemsMeaning(items: Items, seen: seq<Json>): Reading
    requires GoodItems(items)
  {
    match Meaning(items.v)
    case Repeated(key) => Repeated(key)
    case Fine(v) => if items.LastItem? then Fine(Arr(seen + [v])) else ItemsMeaning(items.rest, seen + [v])
  }

  /** Members are read in order; a key already present is refused before its value is read. */
  function MembersMeaning(ms: Members, seen: Properties): Reading
    requires GoodMembers(ms)
  {
    var key := CharsValue(ms.m.key);
    if key in seen.members then Repeated(key)
    else
      assert GoodMember(ms.m);
      match Meaning(ms.m.v)
      case Repeated(k) => Repeated(k)
      case Fine(v) =>
        if ms.LastMember? then Fine(Obj(SetOwn(seen, key, v))) else MembersMeaning(ms.rest, SetOwn(seen, key, v))
  }

  // Reading pieces of text ------------------------------------------------------------------------------------

  /** From position `i` on, the text is `s`. */
  ghost predicate From(t: Text, i: nat, s: Text) {
    i <= |t| && t[i..] == s
  }

  lemma FromNext(t: Text, i: nat, a: Text, b: Text)
    requires From(t, i, a + b)
    ensures From(t, i + |a|, b) && i + |a| + |b| == |t|
    ensures forall k | 0 <= k < |a| :: t[i + k] == a[k]
    ensures a != [] ==> CharAt(t, i) == a[0]
  {
    assert t[i..][|a|..] == b;
    forall k | 0 <= k < |a| ensures t[i + k] == a[k] {
      assert t[i..][k] == (a + b)[k];
    }
  }

  lemma FromHead(t: Text, i: nat, s: Text)
    requires From(t, i, s)
    ensures CharAt(t, i) == if s == [] then END else s[0]
  {
    if s != [] {
      assert t[i..][0] == s[0];
    }
  }

  lemma {:induction false} WhiteSkipped(t: Text, i: nat, ws: Text, rest: Text)
    requires From(t, i, ws + rest) && White(ws)
    requires rest == [] || !IsWhite(rest[0])
    ensures SkipWhite(t, i) == i + |ws| && From(t, i + |ws|, rest)
    decreases |ws|
  {
    FromNext(t, i, ws, rest);
    FromHead(t, i, ws + rest);
    if ws != [] {
      assert ws[0] in ws;
      assert ws + rest == [ws[0]] + (ws[1..] + rest);
      FromNext(t, i, [ws[0]], ws[1..] + rest);
      WhiteSkipped(t, i + 1, ws[1..], rest);
    }
  }

  lemma {:induction false} DigitsSkipped(t: Text, i: nat, s: Text, rest: Text)
    requires From(t, i, s + rest) && Digits(s)
    requires rest == [] || !IsDigit(rest[0])
    ensures SkipDigits(t, i) == i + |s| && From(t, i + |s|, rest)
    decreases |s|
  {
    FromNext(t, i, s, rest);
    FromHead(t, i, s + rest);
    if s != [] {
      assert s[0] in s;
      assert s + rest == [s[0]] + (s[1..] + rest);
      FromNext(t, i, [s[0]], s[1..] + rest);
      DigitsSkipped(t, i + 1, s[1..], rest);
    }
  }

  /** What follows a printed value never extends a number. */
  predicate Delimited(rest: Text) {
    rest != [] ==> !IsDigit(rest[0]) && rest[0] != DOT && !IsExponentMark(rest[0])
  }

  lemma FractionRead(t: Text, i: nat, n: NumberText, rest: Text)
    requires GoodNumber(n) && From(t, i, FractionText(n) + rest)
    requires rest != [] ==> !IsDigit(rest[0]) && rest[0] != DOT
    ensures AfterFraction(t, i) == i + |FractionText(n)| && From(t, i + |FractionText(n)|, rest)
  {
    FromHead(t, i, FractionText(n) + rest);
    FromNext(t, i, FractionText(n), rest);
    if n.hasFraction {
      assert FractionText(n) + rest == [DOT] + (n.fraction + rest);
      FromNext(t, i, [DOT], n.fraction + rest);
      DigitsSkipped(t, i + 1, n.fraction, rest);
    }
  }

  lemma ExponentRead(t: Text, i: nat, n: NumberText, rest: Text)
    requires GoodNumber(n) && From(t, i, ExponentText(n) + rest) && Delimited(rest)
    ensures AfterExponent(t, i) == i + |ExponentText(n)| && From(t, i + |ExponentText(n)|, rest)
    ensures IsExponentMark(CharAt(t, i)) <==> n.hasExponent
    ensures n.hasExponent ==> AfterExponentSign(t, i + 1) < AfterExponent(t, i)
  {
    hide From, SkipDigits, CharAt;
    FromHead(t, i, ExponentText(n) + rest);
    FromNext(t, i, ExponentText(n), rest);
    if n.hasExponent {
      assert ExponentText(n) + rest == [n.mark] + (n.sign + (n.exponent + rest));
      FromNext(t, i, [n.mark], n.sign + (n.exponent + rest));
      ExponentDigits(t, i + 1, n, rest);
    }
  }

  /** The sign and the digits of an exponent. */
  lemma ExponentDigits(t: Text, i: nat, n: NumberText, rest: Text)
    requires GoodNumber(n) && n.hasExponent && From(t, i, n.sign + (n.exponent + rest)) && Delimited(rest)
    ensures i <= |t| && AfterExponentSign(t, i) == i + |n.sign| <= |t|
    ensures SkipDigits(t, i + |n.sign|) == i + |n.sign| + |n.exponent| > i + |n.sign|
  {
    hide From, SkipDigits, CharAt;
    FromNext(t, i, n.sign, n.exponent + rest);
    FromHead(t, i, n.sign + (n.exponent + rest));
    assert n.exponent[0] in n.exponent;
    FromNext(t, i + |n.sign|, n.exponent, rest);
    DigitsSkipped(t, i + |n.sign|, n.exponent, rest);
    FromInside(t, i, n.sign + (n.exponent + rest));
  }

  lemma FromInside(t: Text, i: nat, s: Text)
    requires From(t, i, s)
    ensures i <= |t| && i + |s| == |t|
  {
  }

  lemma NumberRead(t: Text, i: nat, n: NumberText, rest: Text)
    requires GoodNumber(n) && From(t, i, NumText(n) + rest) && Delimited(rest)
    ensures ParseNumber(t, i) == Ok(Num(NumText(n)), i + |NumText(n)|)
    ensures From(t, i + |NumText(n)|, rest)
  {
    hide SkipDigits, AfterSign, AfterFraction, AfterExponent, AfterExponentSign, ParseNumber, From,
         FractionText, ExponentText, SignText, IsExponentMark, GoodNumber, Delimited, CharAt;
    var i1 := i + |SignText(n)|;
    var i2 := i1 + |n.whole|;
    var i3 := i2 + |FractionText(n)|;
    var i4 := i3 + |ExponentText(n)|;
    WholeRead(t, i, n, rest);
    FractionRead(t, i2, n, ExponentText(n) + rest);
    ExponentRead(t, i3, n, rest);
    NumberAssembled(t, i, i1, i2, i3, i4);
    Slice(t, i, NumText(n), rest);
  }

  lemma Slice(t: Text, i: nat, s: Text, rest: Text)
    requires From(t, i, s + rest)
    ensures i + |s| <= |t| && t[i..i + |s|] == s
  {
    assert t[i..i + |s|] == t[i..][..|s|];
  }

  lemma WholeRead(t: Text, i: nat, n: NumberText, rest: Text)
    requires GoodNumber(n) && From(t, i, NumText(n) + rest) && Delimited(rest)
    ensures var i1 := i + |SignText(n)|;
            var i2 := i1 + |n.whole|;
            && i1 <= |t| && AfterSign(t, i) == i1 && SkipDigits(t, i1) == i2 && i1 < i2
            && From(t, i2, FractionText(n) + (ExponentText(n) + rest))
    ensures var e := ExponentText(n) + rest; e != [] ==> !IsDigit(e[0]) && e[0] != DOT
  {
    var afterWhole := FractionText(n) + (ExponentText(n) + rest);
    NumberParts(n, rest);
    AfterWholeIsNoDigit(n, rest);
    WholeFirst(n);
    hide SkipDigits, AfterSign, FractionText, ExponentText, SignText, From, NumText, CharAt, Delimited, GoodNumber, Digits, IsDigit;
    FromNext(t, i, SignText(n), n.whole + afterWhole);
    SignRead(t, i, n, n.whole + afterWhole);
    DigitsSkipped(t, i + |SignText(n)|, n.whole, afterWhole);
  }

  lemma WholeFirst(n: NumberText)
    requires GoodNumber(n)
    ensures Digits(n.whole) && n.whole != [] && n.whole[0] in n.whole && IsDigit(n.whole[0])
  {
  }

  lemma NumberAssembled(t: Text, i: nat, i1: nat, i2: nat, i3: nat, i4: nat)
    requires i <= |t| && AfterSign(t, i) == i1 && SkipDigits(t, i1) == i2 && i1 < i2
    requires AfterFraction(t, i2) == i3 && AfterExponent(t, i3) == i4
    requires IsExponentMark(CharAt(t, i3)) ==> AfterExponentSign(t, i3 + 1) < i4
    ensures ParseNumber(t, i) == Ok(Num(t[i..i4]), i4)
  {
  }

  lemma NumberParts(n: NumberText, rest: Text)
    ensures NumText(n) + rest == SignText(n) + (n.whole + (FractionText(n) + (ExponentText(n) + rest)))
  {
  }

  lemma SignRead(t: Text, i: nat, n: NumberText, rest: Text)
    requires From(t, i, SignText(n) + rest) && rest != [] && IsDigit(rest[0])
    ensures AfterSign(t, i) == i + |SignText(n)|
  {
    FromHead(t, i, SignText(n) + rest);
  }

  lemma AfterWholeIsNoDigit(n: NumberText, rest: Text)
    requires GoodNumber(n) && Delimited(rest)
    ensures var e := ExponentText(n) + rest; e != [] ==> !IsDigit(e[0]) && e[0] != DOT
    ensures var f := FractionText(n) + (ExponentText(n) + rest); f != [] ==> !IsDigit(f[0])
  {
  }

  lemma HexRead(t: Text, i: nat, p: Piece, rest: Text)
    requires p.Hex? && GoodPiece(p) && 1 <= i && From(t, i, [p.a, p.b, p.c, p.d] + rest)
    ensures ParseHex(t, i, 4, 0) == (PieceValue(p), i + 3)
  {
    FromNext(t, i, [p.a, p.b, p.c, p.d], rest);
    assert t[i + 0] == p.a && t[i + 1] == p.b && t[i + 2] == p.c && t[i + 3] == p.d;
    var a := HexValue(p.a);
    var b := a * 16 + HexValue(p.b);
    var c := b * 16 + HexValue(p.c);
    assert ParseHex(t, i, 4, 0) == ParseHex(t, i + 1, 3, a);
    assert ParseHex(t, i + 1, 3, a) == ParseHex(t, i + 2, 2, b);
    assert ParseHex(t, i + 2, 2, b) == ParseHex(t, i + 3, 1, c);
    assert ParseHex(t, i + 3, 1, c) == ParseHex(t, i + 4, 0, c * 16 + HexValue(p.d));
  }

  lemma HexPieceRead(t: Text, i: nat, p: Piece, rest: Text, acc: Text)
    requires p.Hex? && GoodPiece(p) && 1 <= i && From(t, i, PieceText(p) + rest)
    ensures ParseChars(t, i, acc) == ParseChars(t, i + |PieceText(p)|, acc + [PieceValue(p)])
  {
    hide HexValue, GoodPiece, ParseHex;
    var digits := [p.a, p.b, p.c, p.d];
    FromNext(t, i, PieceText(p), rest);
    assert t[i + 0] == BACKSLASH && t[i + 1] == LOWER_U;
    assert PieceText(p) + rest == [BACKSLASH, LOWER_U] + (digits + rest);
    FromNext(t, i, [BACKSLASH, LOWER_U], digits + rest);
    HexRead(t, i + 2, p, rest);
  }

  lemma PieceRead(t: Text, i: nat, p: Piece, rest: Text, acc: Text)
    requires GoodPiece(p) && 1 <= i && From(t, i, PieceText(p) + rest)
    ensures ParseChars(t, i, acc) == ParseChars(t, i + |PieceText(p)|, acc + [PieceValue(p)])
    ensures From(t, i + |PieceText(p)|, rest)
  {
    FromNext(t, i, PieceText(p), rest);
    match p
    case Plain(u) => assert t[i + 0] == u;
    case Escaped(c) => assert t[i + 0] == BACKSLASH && t[i + 1] == c;
    case Hex(_, _, _, _) =>
      HexPieceRead(t, i, p, rest, acc);
  }

  lemma CharsEnd(t: Text, i: nat, rest: Text, acc: Text)
    requires From(t, i, [QUOTE] + rest)
    ensures ParseChars(t, i, acc) == Ok(acc, i + 1) && From(t, i + 1, rest)
  {
    FromNext(t, i, [QUOTE], rest);
  }

  lemma {:induction false} CharsRead(t: Text, i: nat, pieces: seq<Piece>, rest: Text, acc: Text)
    requires GoodString(pieces) && 1 <= i && From(t, i, CharsText(pieces) + [QUOTE] + rest)
    ensures ParseChars(t, i, acc) == Ok(acc + CharsValue(pieces), i + |CharsText(pieces)| + 1)
    ensures From(t, i + |CharsText(pieces)| + 1, rest)
    decreases |pieces|
  {
    hide ParseChars, From, GoodPiece, PieceValue, PieceText;
    if pieces == [] {
      assert CharsText(pieces) + [QUOTE] + rest == [QUOTE] + rest;
      CharsEnd(t, i, rest, acc);
      assert acc + [] == acc;
    } else {
      var p, more := pieces[0], pieces[1..];
      assert CharsText(pieces) + [QUOTE] + rest == PieceText(p) + (CharsText(more) + [QUOTE] + rest);
      PieceRead(t, i, p, CharsText(more) + [QUOTE] + rest, acc);
      CharsRead(t, i + |PieceText(p)|, more, rest, acc + [PieceValue(p)]);
      assert acc + [PieceValue(p)] + CharsValue(more) == acc + CharsValue(pieces);
    }
  }

  lemma StringRead(t: Text, i: nat, pieces: seq<Piece>, rest: Text)
    requires GoodString(pieces) && From(t, i, StringText(pieces) + rest)
    ensures ParseString(t, i) == Ok(CharsValue(pieces), i + |StringText(pieces)|)
    ensures From(t, i + |StringText(pieces)|, rest)
  {
    hide ParseChars, From, GoodString, CharsText, CharsValue;
    assert StringText(pieces) + rest == [QUOTE] + (CharsText(pieces) + [QUOTE] + rest);
    FromNext(t, i, [QUOTE], CharsText(pieces) + [QUOTE] + rest);
    CharsRead(t, i + 1, pieces, rest, []);
    assert [] + CharsValue(pieces) == CharsValue(pieces);
  }

  lemma {:induction false} WordRead(t: Text, i: nat, word: Text, value: Json, rest: Text)
    requires From(t, i, word + rest)
    ensures ParseWord(t, i, word, value) == Ok(value, i + |word|) && From(t, i + |word|, rest)
    decreases |word|
  {
    FromNext(t, i, word, rest);
    if word != [] {
      assert word + rest == [word[0]] + (word[1..] + rest);
      FromNext(t, i, [word[0]], word[1..] + rest);
      WordRead(t, i + 1, word[1..], value, rest);
    }
  }

  // The round trip --------------------------------------------------------------------------------------------

  /** The parser's outcome matches what the text stands for, and `rest` is what is left. */
  ghost predicate Reads(r: Outcome<Json>, m: Reading, t: Text, rest: Text) {
    match m
    case Fine(v) => |rest| <= |t| && r == Ok(v, |t| - |rest|)
    case Repeated(key) => r.Err? && r.error == DuplicateKey(key)
  }

  lemma ReadsFine(r: Outcome<Json>, v: Json, pos: nat, t: Text, rest: Text)
    requires r == Ok(v, pos) && pos + |rest| == |t|
    ensures Reads(r, Fine(v), t, rest)
  {
  }

  lemma ReadsRepeated(r: Outcome<Json>, key: Text, t: Text, rest: Text)
    requires r.Err? && r.error == DuplicateKey(key)
    ensures Reads(r, Repeated(key), t, rest)
  {
  }

  lemma ReadsOutcome(r: Outcome<Json>, m: Reading, t: Text, rest: Text)
    requires Reads(r, m, t, rest)
    ensures m.Fine? ==> |rest| <= |t| && r == Ok(m.value, |t| - |rest|)
    ensures m.Repeated? ==> r.Err? && forall other :: Reads(r, m, t, other)
  {
  }

  lemma PrintStarts(d: Doc)
    requires Good(d)
    ensures Print(d) != [] && !IsWhite(Print(d)[0]) && Print(d)[0] != CLOSE_ARRAY
  {
    if d.NumDoc? {
      assert d.n.whole[0] in d.n.whole;
    }
  }

  lemma ItemsStart(items: Items)
    requires GoodItems(items)
    ensures PrintItems(items) != [] && !IsWhite(PrintItems(items)[0]) && PrintItems(items)[0] != CLOSE_ARRAY
  {
    PrintStarts(items.v);
  }

  lemma MembersStart(ms: Members)
    requires GoodMembers(ms)
    ensures PrintMembers(ms) != [] && PrintMembers(ms)[0] == QUOTE
  {
    assert PrintMember(ms.m)[0] == QUOTE;
  }

  lemma DelimitedAfterWhite(ws: Text, rest: Text)
    requires White(ws) && rest != [] && !IsDigit(rest[0]) && rest[0] != DOT && !IsExponentMark(rest[0])
    ensures Delimited(ws + rest)
  {
    if ws != [] {
      assert ws[0] in ws;
    }
  }

  // One step of each parsing function, as the proofs below use it ------------------------------------------

  lemma Dispatch(t: Text, i: nat, j: nat)
    requires i <= |t| && SkipWhite(t, i) == j
    ensures CharAt(t, j) == OPEN_OBJECT ==> ParseValue(t, i) == ParseObject(t, j)
    ensures CharAt(t, j) == OPEN_ARRAY ==> ParseValue(t, i) == ParseArray(t, j)
    ensures CharAt(t, j) == QUOTE && ParseString(t, j).Ok? ==>
              ParseValue(t, i) == Ok(Str(ParseString(t, j).value), ParseString(t, j).pos)
    ensures CharAt(t, j) == MINUS || IsDigit(CharAt(t, j)) ==> ParseValue(t, i) == ParseNumber(t, j)
    ensures CharAt(t, j) == TRUE[0] ==> ParseValue(t, i) == ParseWord(t, j, TRUE, Bool(true))
    ensures CharAt(t, j) == FALSE[0] ==> ParseValue(t, i) == ParseWord(t, j, FALSE, Bool(false))
    ensures CharAt(t, j) == NULL[0] ==> ParseValue(t, i) == ParseWord(t, j, NULL, Null)
  {
  }

  lemma ItemsStep(t: Text, i: nat, acc: seq<Json>)
    requires i <= |t| && CharAt(t, i) != END
    ensures ParseValue(t, i).Err? ==> ParseItems(t, i, acc) == ParseValue(t, i)
    ensures ParseValue(t, i).Ok? ==>
              var j := SkipWhite(t, ParseValue(t, i).pos);
              && (CharAt(t, j) == CLOSE_ARRAY ==> ParseItems(t, i, acc) == Ok(Arr(acc + [ParseValue(t, i).value]), j + 1))
              && (CharAt(t, j) == COMMA ==>
                    ParseItems(t, i, acc) == ParseItems(t, SkipWhite(t, j + 1), acc + [ParseValue(t, i).value]))
  {
  }

  lemma MembersStep(t: Text, i: nat, acc: Properties, key: Text, c: nat)
    requires i <= |t| && CharAt(t, i) != END && ParseString(t, i).Ok? && ParseString(t, i).value == key
    requires c == SkipWhite(t, ParseString(t, i).pos) && CharAt(t, c) == COLON
    ensures key in acc.members ==> ParseMembers(t, i, acc) == Err(DuplicateKey(key), c + 2)
    ensures key !in acc.members && ParseValue(t, c + 1).Err? ==> ParseMembers(t, i, acc) == ParseValue(t, c + 1)
    ensures key !in acc.members && ParseValue(t, c + 1).Ok? ==>
              var j := SkipWhite(t, ParseValue(t, c + 1).pos);
              var acc' := SetOwn(acc, key, ParseValue(t, c + 1).value);
              && (CharAt(t, j) == CLOSE_OBJECT ==> ParseMembers(t, i, acc) == Ok(Obj(acc'), j + 1))
              && (CharAt(t, j) == COMMA ==> ParseMembers(t, i, acc) == ParseMembers(t, SkipWhite(t, j + 1), acc'))
  {
  }

  // Bracketed texts ---------------------------------------------------------------------------------------------

  /** An opening bracket and white space, then something else. */
  lemma Opened(t: Text, j: nat, open_: Unit, ws: Text, rest: Text)
    requires From(t, j, [open_] + ws + rest) && White(ws) && rest != [] && !IsWhite(rest[0])
    ensures j < |t| && CharAt(t, j) == open_ && SkipWhite(t, j + 1) == j + 1 + |ws|
    ensures From(t, j + 1 + |ws|, rest) && CharAt(t, j + 1 + |ws|) == rest[0]
  {
    assert [open_] + ws + rest == [open_] + (ws + rest);
    FromNext(t, j, [open_], ws + rest);
    WhiteSkipped(t, j + 1, ws, rest);
    FromHead(t, j + 1 + |ws|, rest);
  }

  lemma EmptyArrRead(inner: Text, t: Text, j: nat, rest: Text)
    requires White(inner) && From(t, j, [OPEN_ARRAY] + inner + ([CLOSE_ARRAY] + rest))
    ensures j < |t| && |rest| <= |t| && ParseArray(t, j) == Ok(Arr([]), |t| - |rest|)
  {
    Opened(t, j, OPEN_ARRAY, inner, [CLOSE_ARRAY] + rest);
    FromNext(t, j + 1 + |inner|, [CLOSE_ARRAY], rest);
  }

  lemma EmptyObjRead(inner: Text, t: Text, j: nat, rest: Text)
    requires White(inner) && From(t, j, [OPEN_OBJECT] + inner + ([CLOSE_OBJECT] + rest))
    ensures j < |t| && |rest| <= |t| && ParseObject(t, j) == Ok(Obj(EMPTY), |t| - |rest|)
  {
    Opened(t, j, OPEN_OBJECT, inner, [CLOSE_OBJECT] + rest);
    FromNext(t, j + 1 + |inner|, [CLOSE_OBJECT], rest);
  }

  /** A separator with white space on both sides. */
  lemma Separated(t: Text, pos: nat, after: Text, sep: Unit, before: Text, rest: Text)
    requires From(t, pos, after + ([sep] + (before + rest))) && White(after) && White(before) && !IsWhite(sep)
    requires rest != [] && !IsWhite(rest[0])
    ensures var j := SkipWhite(t, pos);
            && j < |t| && CharAt(t, j) == sep
            && SkipWhite(t, j + 1) == j + 1 + |before| && From(t, j + 1 + |before|, rest)
  {
    WhiteSkipped(t, pos, after, [sep] + (before + rest));
    FromNext(t, pos + |after|, [sep], before + rest);
    WhiteSkipped(t, pos + |after| + 1, before, rest);
  }

  /** A closing bracket after white space. */
  lemma Closed(t: Text, pos: nat, after: Text, close: Unit, rest: Text)
    requires From(t, pos, after + ([close] + rest)) && White(after) && !IsWhite(close)
    ensures var j := SkipWhite(t, pos); j < |t| && CharAt(t, j) == close && j + 1 + |rest| == |t|
  {
    WhiteSkipped(t, pos, after, [close] + rest);
    FromNext(t, pos + |after|, [close], rest);
  }

  lemma FromEnd(t: Text, i: nat, a: Text, rest: Text)
    requires From(t, i, a + rest)
    ensures |rest| <= |t| && From(t, |t| - |rest|, rest)
  {
    FromNext(t, i, a, rest);
  }

  // Values, items and members ---------------------------------------------------------------------------------------

  /** A printed value reads as what it stands for, wherever it stands and however much white space precedes it. */
  lemma {:induction false} ValueRead(d: Doc, t: Text, i: nat, ws: Text, rest: Text)
    requires Good(d) && White(ws) && Delimited(rest) && From(t, i, ws + (Print(d) + rest))
    ensures Reads(ParseValue(t, i), Meaning(d), t, rest)
    decreases d, 1
  {
    hide ParseValue, ParseArray, ParseObject, ParseNumber, ParseString, ParseWord, SkipWhite, From, White, Delimited, CharsValue, NumText;
    PrintStarts(d);
    WhiteSkipped(t, i, ws, Print(d) + rest);
    var j := i + |ws|;
    FromHead(t, j, Print(d) + rest);
    FromNext(t, j, Print(d), rest);
    Dispatch(t, i, j);
    match d
    case NullDoc => WordRead(t, j, NULL, Null, rest);
    case BoolDoc(b) =>
      if b {
        WordRead(t, j, TRUE, Bool(true), rest);
      } else {
        WordRead(t, j, FALSE, Bool(false), rest);
      }
    case NumDoc(n) =>
      NumberStarts(n);
      NumberRead(t, j, n, rest);
    case StrDoc(pieces) => StringRead(t, j, pieces, rest);
    case EmptyArr(inner) =>
      assert Print(d) + rest == [OPEN_ARRAY] + inner + ([CLOSE_ARRAY] + rest);
      EmptyArrRead(inner, t, j, rest);
    case ArrDoc(before, items) => ArrRead(d, t, j, rest);
    case EmptyObj(inner) =>
      assert Print(d) + rest == [OPEN_OBJECT] + inner + ([CLOSE_OBJECT] + rest);
      EmptyObjRead(inner, t, j, rest);
    case ObjDoc(before, members) => ObjRead(d, t, j, rest);
  }

  lemma NumberStarts(n: NumberText)
    requires GoodNumber(n)
    ensures NumText(n) != [] && (NumText(n)[0] == MINUS || IsDigit(NumText(n)[0]))
  {
    assert n.whole[0] in n.whole;
  }

  lemma {:induction false} ArrRead(d: Doc, t: Text, j: nat, rest: Text)
    requires d.ArrDoc? && Good(d) && From(t, j, Print(d) + rest)
    ensures j < |t| && CharAt(t, j) == OPEN_ARRAY && Reads(ParseArray(t, j), Meaning(d), t, rest)
    decreases d, 0
  {
    hide ParseItems, SkipWhite, From, White, ItemsMeaning;
    var items := PrintItems(d.items) + ([CLOSE_ARRAY] + rest);
    assert Print(d) + rest == [OPEN_ARRAY] + d.before + items;
    ItemsStart(d.items);
    Opened(t, j, OPEN_ARRAY, d.before, items);
    ItemsRead(d.items, [], t, j + 1 + |d.before|, rest);
  }

  lemma ItemsMeaningStep(items: Items, acc: seq<Json>)
    requires GoodItems(items)
    ensures Good(items.v) && White(items.after)
    ensures items.MoreItems? ==> GoodItems(items.rest) && White(items.before)
    ensures var m := ItemsMeaning(items, acc);
            if Meaning(items.v).Repeated? then m == Meaning(items.v)
            else if items.LastItem? then m == Fine(Arr(acc + [Meaning(items.v).value]))
            else m == ItemsMeaning(items.rest, acc + [Meaning(items.v).value])
  {
  }

  lemma {:induction false} ItemsRead(items: Items, acc: seq<Json>, t: Text, i: nat, rest: Text)
    requires GoodItems(items) && From(t, i, PrintItems(items) + ([CLOSE_ARRAY] + rest))
    ensures Reads(ParseItems(t, i, acc), ItemsMeaning(items, acc), t, rest)
    decreases items, 1
  {
    hide ParseItems, ParseValue, SkipWhite, From, White, Delimited, Meaning, ItemsMeaning, Print, PrintItems, Good;
    hide GoodItems, Reads, CharAt;
    ItemsMeaningStep(items, acc);
    var tail := if items.LastItem? then [CLOSE_ARRAY] + rest
                else [COMMA] + (items.before + (PrintItems(items.rest) + ([CLOSE_ARRAY] + rest)));
    FirstItemRead(items, t, i, tail, rest);
    ItemsStep(t, i, acc);
    ReadsOutcome(ParseValue(t, i), Meaning(items.v), t, items.after + tail);
    if Meaning(items.v).Fine? {
      var v := Meaning(items.v).value;
      var pos := |t| - |items.after + tail|;
      if items.LastItem? {
        Closed(t, pos, items.after, CLOSE_ARRAY, rest);
        ReadsFine(ParseItems(t, i, acc), Arr(acc + [v]), SkipWhite(t, pos) + 1, t, rest);
      } else {
        ItemsStart(items.rest);
        var more := PrintItems(items.rest) + ([CLOSE_ARRAY] + rest);
        assert tail == [COMMA] + (items.before + more);
        Separated(t, pos, items.after, COMMA, items.before, more);
        ItemsRead(items.rest, acc + [v], t, SkipWhite(t, pos) + 1 + |items.before|, rest);
      }
    }
  }

  lemma {:induction false} FirstItemRead(items: Items, t: Text, i: nat, tail: Text, rest: Text)
    requires GoodItems(items) && From(t, i, PrintItems(items) + ([CLOSE_ARRAY] + rest))
    requires tail == if items.LastItem? then [CLOSE_ARRAY] + rest
                     else [COMMA] + (items.before + (PrintItems(items.rest) + ([CLOSE_ARRAY] + rest)))
    ensures i <= |t| && CharAt(t, i) != END
    ensures Reads(ParseValue(t, i), Meaning(items.v), t, items.after + tail)
    ensures |items.after + tail| <= |t| && From(t, |t| - |items.after + tail|, items.after + tail)
    decreases items, 0
  {
    hide ParseValue, From, White, Delimited, Meaning, Print, PrintItems, Good;
    ItemsSplit(items, tail, rest);
    PrintStarts(items.v);
    FromHead(t, i, Print(items.v) + (items.after + tail));
    DelimitedAfterWhite(items.after, tail);
    assert [] + (Print(items.v) + (items.after + tail)) == Print(items.v) + (items.after + tail);
    NoWhite();
    ValueRead(items.v, t, i, [], items.after + tail);
    FromEnd(t, i, Print(items.v), items.after + tail);
  }

  lemma NoWhite()
    ensures White([])
  {
  }

  lemma ItemsSplit(items: Items, tail: Text, rest: Text)
    requires tail == if items.LastItem? then [CLOSE_ARRAY] + rest
                     else [COMMA] + (items.before + (PrintItems(items.rest) + ([CLOSE_ARRAY] + rest)))
    ensures PrintItems(items) + ([CLOSE_ARRAY] + rest) == Print(items.v) + (items.after + tail)
  {
    hide Print;
  }

  lemma {:induction false} ObjRead(d: Doc, t: Text, j: nat, rest: Text)
    requires d.ObjDoc? && Good(d) && From(t, j, Print(d) + rest)
    ensures j < |t| && CharAt(t, j) == OPEN_OBJECT && Reads(ParseObject(t, j), Meaning(d), t, rest)
    decreases d, 0
  {
    hide ParseMembers, SkipWhite, From, White, MembersMeaning;
    var members := PrintMembers(d.members) + ([CLOSE_OBJECT] + rest);
    assert Print(d) + rest == [OPEN_OBJECT] + d.before + members;
    MembersStart(d.members);
    Opened(t, j, OPEN_OBJECT, d.before, members);
    MembersRead(d.members, EMPTY, t, j + 1 + |d.before|, rest);
  }

  lemma MembersSplit(ms: Members, tail: Text, rest: Text)
    requires tail == MembersTail(ms, rest)
    ensures PrintMembers(ms) + ([CLOSE_OBJECT] + rest)
            == StringText(ms.m.key) + (ms.m.afterKey + ([COLON] + (ms.m.beforeValue + (Print(ms.m.v) + (ms.m.after + tail)))))
  {
    hide StringText, Print, PrintMembers;
    MembersText(ms);
  }

  lemma MembersText(ms: Members)
    ensures ms.LastMember? ==> PrintMembers(ms) == StringText(ms.m.key) + ms.m.afterKey + [COLON] + ms.m.beforeValue + Print(ms.m.v) + ms.m.after
    ensures ms.MoreMembers? ==>
              PrintMembers(ms) == StringText(ms.m.key) + ms.m.afterKey + [COLON] + ms.m.beforeValue + Print(ms.m.v) + ms.m.after
                                  + [COMMA] + ms.before + PrintMembers(ms.rest)
  {
  }

  lemma MembersMeaningStep(ms: Members, acc: Properties)
    requires GoodMembers(ms)
    ensures GoodMember(ms.m) && (ms.MoreMembers? ==> GoodMembers(ms.rest) && White(ms.before))
    ensures var key, m := CharsValue(ms.m.key), MembersMeaning(ms, acc);
            if key in acc.members then m == Repeated(key)
            else if Meaning(ms.m.v).Repeated? then m == Meaning(ms.m.v)
            else if ms.LastMember? then m == Fine(Obj(SetOwn(acc, key, Meaning(ms.m.v).value)))
            else m == MembersMeaning(ms.rest, SetOwn(acc, key, Meaning(ms.m.v).value))
  {
    assert GoodMember(ms.m);
  }

  function MembersTail(ms: Members, rest: Text): Text {
    if ms.LastMember? then [CLOSE_OBJECT] + rest
    else [COMMA] + (ms.before + (PrintMembers(ms.rest) + ([CLOSE_OBJECT] + rest)))
  }

  lemma {:induction false} MembersRead(ms: Members, acc: Properties, t: Text, i: nat, rest: Text)
    requires GoodMembers(ms) && From(t, i, PrintMembers(ms) + ([CLOSE_OBJECT] + rest))
    ensures Reads(ParseMembers(t, i, acc), MembersMeaning(ms, acc), t, rest)
    decreases ms, 2
  {
    hide ParseMembers, ParseValue, ParseString, SkipWhite, From, White, Meaning, Print, Good, StringText,
         CharsValue, SetOwn, GoodString, PrintMembers, Reads, MembersMeaning;
    var m := ms.m;
    MembersMeaningStep(ms, acc);
    var tail := MembersTail(ms, rest);
    MembersSplit(ms, tail, rest);
    var key := CharsValue(m.key);
    var c := KeyRead(m, t, i, tail);
    MembersStep(t, i, acc, key, c);
    if key in acc.members {
      ReadsRepeated(ParseMembers(t, i, acc), key, t, rest);
    } else {
      MemberValueRead(ms, t, c + 1, tail, rest);
      ReadsOutcome(ParseValue(t, c + 1), Meaning(m.v), t, m.after + tail);
      if Meaning(m.v).Fine? {
        AfterMember(ms, acc, t, i, ParseValue(t, c + 1).pos, key, Meaning(m.v).value, rest);
      } else {
        assert ParseMembers(t, i, acc) == ParseValue(t, c + 1);
        assert MembersMeaning(ms, acc) == Meaning(m.v);
      }
    }
  }

  lemma {:induction false} AfterMember(ms: Members, acc: Properties, t: Text, i: nat, pos: nat, key: Text, v: Json, rest: Text)
    requires GoodMembers(ms) && GoodMember(ms.m) && i <= |t|
    requires From(t, pos, ms.m.after + MembersTail(ms, rest))
    requires key == CharsValue(ms.m.key) && key !in acc.members && Meaning(ms.m.v) == Fine(v)
    requires var j := SkipWhite(t, pos);
             && (CharAt(t, j) == CLOSE_OBJECT ==> ParseMembers(t, i, acc) == Ok(Obj(SetOwn(acc, key, v)), j + 1))
             && (CharAt(t, j) == COMMA ==> ParseMembers(t, i, acc) == ParseMembers(t, SkipWhite(t, j + 1), SetOwn(acc, key, v)))
    ensures Reads(ParseMembers(t, i, acc), MembersMeaning(ms, acc), t, rest)
    decreases ms, 1
  {
    hide ParseMembers, ParseValue, ParseString, SkipWhite, From, White, Meaning, Print, Good, StringText,
         CharsValue, SetOwn, GoodString, PrintMembers, Reads, MembersMeaning;
    MembersMeaningStep(ms, acc);
    var acc' := SetOwn(acc, key, v);
    if ms.LastMember? {
      Closed(t, pos, ms.m.after, CLOSE_OBJECT, rest);
      ReadsFine(ParseMembers(t, i, acc), Obj(acc'), SkipWhite(t, pos) + 1, t, rest);
    } else {
      MembersStart(ms.rest);
      var more := PrintMembers(ms.rest) + ([CLOSE_OBJECT] + rest);
      assert MembersTail(ms, rest) == [COMMA] + (ms.before + more);
      Separated(t, pos, ms.m.after, COMMA, ms.before, more);
      var i' := SkipWhite(t, pos) + 1 + |ms.before|;
      MembersRead(ms.rest, acc', t, i', rest);
      assert ParseMembers(t, i, acc) == ParseMembers(t, i', acc');
    }
  }

  lemma {:induction false} MemberValueRead(ms: Members, t: Text, i: nat, tail: Text, rest: Text)
    requires GoodMembers(ms) && GoodMember(ms.m) && From(t, i, ms.m.beforeValue + (Print(ms.m.v) + (ms.m.after + tail)))
    requires tail == MembersTail(ms, rest)
    ensures Reads(ParseValue(t, i), Meaning(ms.m.v), t, ms.m.after + tail)
    ensures |ms.m.after + tail| <= |t| && From(t, |t| - |ms.m.after + tail|, ms.m.after + tail)
    decreases ms, 0
  {
    hide ParseValue, From, White, Delimited, Meaning, Print, Good, Reads, GoodString;
    var m := ms.m;
    assert GoodMember(m);
    DelimitedAfterWhite(m.after, tail);
    ValueRead(m.v, t, i, m.beforeValue, m.after + tail);
    assert m.beforeValue + (Print(m.v) + (m.after + tail)) == m.beforeValue + Print(m.v) + (m.after + tail);
    FromEnd(t, i, m.beforeValue + Print(m.v), m.after + tail);
  }

  lemma KeyRead(m: Member, t: Text, i: nat, tail: Text) returns (c: nat)
    requires GoodMember(m)
    requires From(t, i, StringText(m.key) + (m.afterKey + ([COLON] + (m.beforeValue + (Print(m.v) + (m.after + tail))))))
    ensures i <= |t| && CharAt(t, i) != END && ParseString(t, i).Ok? && ParseString(t, i).value == CharsValue(m.key)
    ensures c == SkipWhite(t, ParseString(t, i).pos) && CharAt(t, c) == COLON && c < |t|
    ensures From(t, c + 1, m.beforeValue + (Print(m.v) + (m.after + tail)))
  {
    hide ParseString, SkipWhite, From, White, Good, Print, CharsValue;
    var value := m.beforeValue + (Print(m.v) + (m.after + tail));
    var k := i + |StringText(m.key)|;
    FromHead(t, i, StringText(m.key) + (m.afterKey + ([COLON] + value)));
    StringRead(t, i, m.key, m.afterKey + ([COLON] + value));
    FromNext(t, i, StringText(m.key), m.afterKey + ([COLON] + value));
    WhiteSkipped(t, k, m.afterKey, [COLON] + value);
    c := k + |m.afterKey|;
    FromNext(t, c, [COLON], value);
  }

  /**
   Round trip: however a value is printed, parsing the whole text gives the value back and consumes all
   of it, unless some object repeats a key, and then the text is refused with that key.
   */
  lemma ParseInvertsPrint(d: Doc, before: Text, after: Text)
    requires Good(d) && White(before) && White(after)
    ensures var r := Parse(before + Print(d) + after);
            match Meaning(d)
            case Fine(v) => r == Ok(v, |before + Print(d) + after|)
            case Repeated(key) => r.Err? && r.error == DuplicateKey(key)
  {
    hide ParseValue, SkipWhite, White, Meaning, Print;
    var t := before + Print(d) + after;
    assert t[0..] == before + (Print(d) + after);
    DelimitedByWhite(after);
    ValueRead(d, t, 0, before, after);
    assert before + (Print(d) + after) == before + Print(d) + after;
    FromEnd(t, 0, before + Print(d), after);
    assert after + [] == after;
    WhiteSkipped(t, |t| - |after|, after, []);
  }

  lemma DelimitedByWhite(ws: Text)
    requires White(ws)
    ensures Delimited(ws)
  {
    if ws != [] {
      assert ws[0] in ws;
    }
  }

  // Which texts repeat a key ------------------------------------------------------------------------------------

  /** Assigned to "__proto__", the value cuts the object off from the accessor: null, or an object cut off itself. */
  predicate Detaching(d: Doc)
    requires Good(d)
  {
    d.NullDoc? || (d.ObjDoc? && Detached(d.members))
  }

  /** Some "__proto__" of the object has such a value. */
  predicate Detached(ms: Members)
    requires GoodMembers(ms)
  {
    assert GoodMember(ms.m);
    (CharsValue(ms.m.key) == PROTO && Detaching(ms.m.v)) || (ms.MoreMembers? && Detached(ms.rest))
  }

  /** The keys that become own properties: "__proto__" does so once the object is cut off. */
  function OwnKeys(ms: Members, accessor: bool): seq<Text>
    requires GoodMembers(ms)
  {
    assert GoodMember(ms.m);
    var key := CharsValue(ms.m.key);
    var inherited := accessor && key == PROTO;
    (if inherited then [] else [key])
    + if ms.MoreMembers? then OwnKeys(ms.rest, accessor && !(inherited && Detaching(ms.m.v))) else []
  }

  predicate Distinct(keys: seq<Text>) {
    forall i, j | 0 <= i < j < |keys| :: keys[i] != keys[j]
  }

  /** No object anywhere in the text repeats a key among its own properties. */
  predicate NoRepeats(d: Doc)
    requires Good(d)
  {
    match d
    case ArrDoc(_, items) => NoRepeatsItems(items)
    case ObjDoc(_, members) => Distinct(OwnKeys(members, true)) && NoRepeatsMembers(members)
    case _ => true
  }

  predicate NoRepeatsItems(items: Items)
    requires GoodItems(items)
  {
    NoRepeats(items.v) && (items.MoreItems? ==> NoRepeatsItems(items.rest))
  }

  predicate NoRepeatsMembers(ms: Members)
    requires GoodMembers(ms)
  {
    assert GoodMember(ms.m);
    NoRepeats(ms.m.v) && (ms.MoreMembers? ==> NoRepeatsMembers(ms.rest))
  }

  /** Whether an object may still assign its prototype after a member has been assigned. */
  lemma AccessorAfter(p: Properties, key: Text, v: Json)
    ensures Accessor(SetOwn(p, key, v).proto) <==>
            Accessor(p.proto) && !(key == PROTO && (v.Null? || (v.Obj? && !Accessor(v.props.proto))))
    ensures forall k :: k in SetOwn(p, key, v).members <==>
              k in p.members || (k == key && !(key == PROTO && Accessor(p.proto)))
  {
  }

  /** Reading agrees with the text on which values cut an object off. */
  lemma {:induction false} DetachingMeans(d: Doc)
    requires Good(d) && Meaning(d).Fine?
    ensures var v := Meaning(d).value; Detaching(d) <==> v.Null? || (v.Obj? && !Accessor(v.props.proto))
    decreases d, 1
  {
    match d
    case ArrDoc(_, items) => ItemsMeanArray(items, []);
    case ObjDoc(_, members) => DetachedMeans(members, EMPTY);
    case _ =>
  }

  lemma {:induction false} ItemsMeanArray(items: Items, seen: seq<Json>)
    requires GoodItems(items) && ItemsMeaning(items, seen).Fine?
    ensures ItemsMeaning(items, seen).value.Arr?
    decreases items
  {
    if items.MoreItems? {
      ItemsMeanArray(items.rest, seen + [Meaning(items.v).value]);
    }
  }

  lemma {:induction false} DetachedMeans(ms: Members, seen: Properties)
    requires GoodMembers(ms) && MembersMeaning(ms, seen).Fine?
    ensures var v := MembersMeaning(ms, seen).value;
            v.Obj? && (Accessor(v.props.proto) <==> Accessor(seen.proto) && !Detached(ms))
    decreases ms, 0
  {
    hide SetOwn;
    MembersMeaningStep(ms, seen);
    var key, v := CharsValue(ms.m.key), Meaning(ms.m.v).value;
    DetachingMeans(ms.m.v);
    AccessorAfter(seen, key, v);
    if ms.MoreMembers? {
      DetachedMeans(ms.rest, SetOwn(seen, key, v));
    }
  }

  lemma {:induction false} FineIffNoRepeats(d: Doc)
    requires Good(d)
    ensures Meaning(d).Fine? <==> NoRepeats(d)
    decreases d
  {
    match d
    case ArrDoc(_, items) => FineItems(items, []);
    case ObjDoc(_, members) => FineMembers(members, EMPTY);
    case _ =>
  }

  lemma {:induction false} FineItems(items: Items, seen: seq<Json>)
    requires GoodItems(items)
    ensures ItemsMeaning(items, seen).Fine? <==> NoRepeatsItems(items)
    decreases items
  {
    FineIffNoRepeats(items.v);
    if items.MoreItems? && Meaning(items.v).Fine? {
      FineItems(items.rest, seen + [Meaning(items.v).value]);
    }
  }

  /** The members can be assigned to an object with these own properties. */
  predicate Assignable(ms: Members, seen: Properties)
    requires GoodMembers(ms)
  {
    var keys := OwnKeys(ms, Accessor(seen.proto));
    Distinct(keys) && forall k | k in keys :: k !in seen.members
  }

  lemma {:induction false} FineMembers(ms: Members, seen: Properties)
    requires GoodMembers(ms) && (Accessor(seen.proto) ==> PROTO !in seen.members)
    ensures MembersMeaning(ms, seen).Fine? <==> NoRepeatsMembers(ms) && Assignable(ms, seen)
    decreases ms
  {
    hide SetOwn, Assignable;
    MembersMeaningStep(ms, seen);
    FineIffNoRepeats(ms.m.v);
    if Meaning(ms.m.v).Fine? {
      var key, v := CharsValue(ms.m.key), Meaning(ms.m.v).value;
      DetachingMeans(ms.m.v);
      AccessorAfter(seen, key, v);
      AssignableStep(ms, seen, v);
      if ms.MoreMembers? {
        FineMembers(ms.rest, SetOwn(seen, key, v));
      }
    }
  }

  /** Assigning the first member leaves the rest to be assigned. */
  lemma AssignableStep(ms: Members, seen: Properties, v: Json)
    requires GoodMembers(ms) && GoodMember(ms.m) && Meaning(ms.m.v) == Fine(v)
    requires Accessor(seen.proto) ==> PROTO !in seen.members
    ensures var key := CharsValue(ms.m.key);
            Assignable(ms, seen) <==>
            key !in seen.members && (ms.MoreMembers? ==> Assignable(ms.rest, SetOwn(seen, key, v)))
  {
    hide SetOwn, Detaching, Accessor;
    var key, accessor := CharsValue(ms.m.key), Accessor(seen.proto);
    DetachingMeans(ms.m.v);
    AccessorAfter(seen, key, v);
    var next := SetOwn(seen, key, v);
    var rest := if ms.MoreMembers? then OwnKeys(ms.rest, Accessor(next.proto)) else [];
    var inherited := accessor && key == PROTO;
    assert OwnKeys(ms, accessor) == (if inherited then [] else [key]) + rest;
    assert ms.MoreMembers? ==> (Assignable(ms.rest, next) <==> Distinct(rest) && forall k | k in rest :: k !in next.members);
    if inherited {
      assert [] + rest == rest;
    } else {
      DistinctSplit(key, rest);
      assert forall k :: k in [key] + rest <==> k == key || k in rest;
    }
  }

  lemma DistinctSplit(key: Text, rest: seq<Text>)
    ensures Distinct([key] + rest) <==> Distinct(rest) && key !in rest
  {
    var all := [key] + rest;
    if Distinct(all) {
      forall i, j | 0 <= i < j < |rest| ensures rest[i] != rest[j] {
        assert all[i + 1] != all[j + 1];
      }
      assert forall j | 0 <= j < |rest| :: all[j + 1] == rest[j] && all[0] != all[j + 1];
    }
  }

  /**
   A printed text is accepted exactly when no object in it repeats a key among its own properties, where
   "__proto__" counts once an earlier value has cut the object off; otherwise it is refused for a duplicate
   key.
   */
  lemma AcceptedIffNoRepeats(d: Doc, before: Text, after: Text)
    requires Good(d) && White(before) && White(after)
    ensures var r := Parse(before + Print(d) + after);
            && (r.Ok? <==> NoRepeats(d))
            && (r.Err? ==> r.error.DuplicateKey?)
  {
    hide Parse;
    ParseInvertsPrint(d, before, after);
    FineIffNoRepeats(d);
  }

  /** An object of two members. */
  function Pair(first: Member, second: Member): Doc {
    ObjDoc([], MoreMembers(first, [], LastMember(second)))
  }

  /** An object of three members. */
  function Triple(first: Member, second: Member, third: Member): Doc {
    ObjDoc([], MoreMembers(first, [], MoreMembers(second, [], LastMember(third))))
  }

  predicate ProtoMember(m: Member) {
    GoodMember(m) && CharsValue(m.key) == PROTO && NoRepeats(m.v)
  }

  /**
   A repeated "__proto__" is accepted as long as its values keep the object attached: it leaves no member,
   and a value that is no object is dropped.
   */
  lemma RepeatedProtoIsAccepted(first: Member, second: Member)
    requires ProtoMember(first) && ProtoMember(second) && !Detaching(first.v)
    ensures var r := Parse(Print(Pair(first, second)));
            r.Ok? && r.value.Obj? && r.value.props.members == map[]
  {
    hide Parse, Print, SetOwn, Detaching;
    var d := Pair(first, second);
    assert GoodMembers(LastMember(second)) && GoodMembers(d.members);
    FineIffNoRepeats(first.v);
    FineIffNoRepeats(second.v);
    DetachingMeans(first.v);
    MembersMeaningStep(d.members, EMPTY);
    AccessorAfter(EMPTY, PROTO, Meaning(first.v).value);
    var p := SetOwn(EMPTY, PROTO, Meaning(first.v).value);
    MembersMeaningStep(d.members.rest, p);
    AccessorAfter(p, PROTO, Meaning(second.v).value);
    assert SetOwn(p, PROTO, Meaning(second.v).value).members == map[];
    ParseInvertsPrint(d, [], []);
    assert [] + Print(d) + [] == Print(d);
  }

  /** After a value that cuts the object off, the next "__proto__" is an own property and a third one is refused. */
  lemma DetachedProtoIsOwn(first: Member, second: Member, third: Member)
    requires ProtoMember(first) && ProtoMember(second) && ProtoMember(third) && Detaching(first.v)
    ensures var r := Parse(Print(Pair(first, second)));
            r.Ok? && r.value.Obj? && Meaning(second.v).Fine? && r.value.props.members == map[PROTO := Meaning(second.v).value]
    ensures var r := Parse(Print(Triple(first, second, third))); r.Err? && r.error == DuplicateKey(PROTO)
  {
    hide Parse, Print, Detaching;
    var d, e := Pair(first, second), Triple(first, second, third);
    assert GoodMembers(LastMember(second)) && GoodMembers(d.members);
    assert GoodMembers(LastMember(third)) && GoodMembers(e.members.rest) && GoodMembers(e.members);
    FineIffNoRepeats(first.v);
    FineIffNoRepeats(second.v);
    DetachingMeans(first.v);
    AccessorAfter(EMPTY, PROTO, Meaning(first.v).value);
    var p := SetOwn(EMPTY, PROTO, Meaning(first.v).value);
    assert p.members == map[];
    MembersMeaningStep(d.members, EMPTY);
    MembersMeaningStep(d.members.rest, p);
    MembersMeaningStep(e.members, EMPTY);
    MembersMeaningStep(e.members.rest, p);
    MembersMeaningStep(e.members.rest.rest, SetOwn(p, PROTO, Meaning(second.v).value));
    ParseInvertsPrint(d, [], []);
    ParseInvertsPrint(e, [], []);
    assert [] + Print(d) + [] == Print(d) && [] + Print(e) + [] == Print(e);
  }

  /** The two cases in the shortest texts: with true first, and with null first. */
  lemma ProtoWitnesses()
    ensures var name := Spelled(PROTO);
            && var yes, none := Member(name, [], [], BoolDoc(true), []), Member(name, [], [], NullDoc, []);
               && Good(Pair(yes, yes)) && NoRepeats(Pair(yes, yes))
               && Good(Triple(none, yes, yes)) && !NoRepeats(Triple(none, yes, yes))
  {
    var name := Spelled(PROTO);
    SpelledReads(PROTO);
    var yes, none := Member(name, [], [], BoolDoc(true), []), Member(name, [], [], NullDoc, []);
    assert GoodMember(yes) && GoodMember(none) && GoodMembers(LastMember(yes));
    assert GoodMembers(MoreMembers(yes, [], LastMember(yes)));
    var d, e := Pair(yes, yes), Triple(none, yes, yes);
    assert OwnKeys(LastMember(yes), true) == [];
    assert OwnKeys(d.members, true) == [] && Distinct([]);
    assert NoRepeatsMembers(LastMember(yes));
    assert OwnKeys(LastMember(yes), false) == [PROTO];
    assert OwnKeys(e.members.rest, false) == [PROTO, PROTO];
    assert OwnKeys(e.members, true) == [PROTO, PROTO];
    assert !Distinct([PROTO, PROTO]) by { assert [PROTO, PROTO][0] == [PROTO, PROTO][1]; }
  }

  // Every value can be written ----------------------------------------------------------------------------------

  /** Quotes and backslashes are escaped, every other unit spells itself. */
  function Spelled(s: Text): (pieces: seq<Piece>)
    ensures |pieces| == |s|
  {
    seq(|s|, i requires 0 <= i < |s| => if s[i] == QUOTE || s[i] == BACKSLASH then Escaped(s[i]) else Plain(s[i]))
  }

  /** Every sequence of units has a spelling. */
  lemma {:induction false} SpelledReads(s: Text)
    ensures GoodString(Spelled(s)) && CharsValue(Spelled(s)) == s
    decreases |s|
  {
    if s != [] {
      SpelledReads(s[1..]);
      assert Spelled(s)[1..] == Spelled(s[1..]);
      assert Spelled(s)[0] in Spelled(s);
      assert forall p | p in Spelled(s) :: p == Spelled(s)[0] || p in Spelled(s[1..]);
    }
  }

  /** A value that some text stands for: its numbers are numerals, and its objects were never given a prototype. */
  ghost predicate Writable(v: Json) {
    match v
    case Num(lexeme) => exists n :: GoodNumber(n) && NumText(n) == lexeme
    case Arr(items) => forall i | 0 <= i < |items| :: Writable(items[i])
    case Obj(props) => props.proto.Standard? && PROTO !in props.members && forall k | k in props.members :: Writable(props.members[k])
    case _ => true
  }

  /** Every such value has a text that means it, which the parser therefore reads as the value. */
  lemma {:induction false} EveryValueIsWritten(v: Json) returns (d: Doc)
    requires Writable(v)
    ensures Good(d) && Meaning(d) == Fine(v) && Parse(Print(d)) == Ok(v, |Print(d)|)
  {
    d := DocOf(v);
    hide Parse, Print;
    ParseInvertsPrint(d, [], []);
    assert [] + Print(d) + [] == Print(d);
  }

  lemma {:induction false} DocOf(v: Json) returns (d: Doc)
    requires Writable(v)
    ensures Good(d) && Meaning(d) == Fine(v)
    decreases v, 2
  {
    match v
    case Null => d := NullDoc;
    case Bool(b) => d := BoolDoc(b);
    case Num(lexeme) =>
      var n :| GoodNumber(n) && NumText(n) == lexeme;
      d := NumDoc(n);
    case Str(s) =>
      SpelledReads(s);
      d := StrDoc(Spelled(s));
    case Arr(items) =>
      if items == [] {
        d := EmptyArr([]);
      } else {
        var its := ItemsOf(v, 0);
        d := ArrDoc([], its);
        assert items[..0] == [];
      }
    case Obj(props) =>
      if props.members == map[] {
        d := EmptyObj([]);
      } else {
        var ms := MembersOf(v, props.members.Keys, EMPTY);
        d := ObjDoc([], ms);
      }
  }

  lemma {:induction false} ItemsOf(v: Json, i: nat) returns (items: Items)
    requires Writable(v) && v.Arr? && i < |v.items|
    ensures GoodItems(items) && ItemsMeaning(items, v.items[..i]) == Fine(v)
    decreases v, 1, |v.items| - i
  {
    var d := DocOf(v.items[i]);
    assert v.items[..i] + [v.items[i]] == v.items[..i + 1];
    if i + 1 < |v.items| {
      var rest := ItemsOf(v, i + 1);
      items := MoreItems(d, [], [], rest);
    } else {
      assert v.items[..i + 1] == v.items;
      items := LastItem(d, []);
    }
  }

  lemma {:induction false} MembersOf(v: Json, todo: set<Text>, seen: Properties) returns (ms: Members)
    requires Writable(v) && v.Obj? && todo <= v.props.members.Keys && todo != {}
    requires seen == Properties(map k | k in v.props.members && k !in todo :: v.props.members[k], Standard)
    ensures GoodMembers(ms) && MembersMeaning(ms, seen) == Fine(v)
    decreases v, 1, |todo|
  {
    var all := v.props.members;
    var key :| key in todo;
    SpelledReads(key);
    var d := DocOf(all[key]);
    var m := Member(Spelled(key), [], [], d, []);
    assert GoodMember(m);
    var next := SetOwn(seen, key, all[key]);
    assert next == Properties(map k | k in all && k !in todo - {key} :: all[k], Standard);
    if todo == {key} {
      ms := LastMember(m);
      MembersMeaningStep(ms, seen);
      assert next.members == all;
    } else {
      var rest := MembersOf(v, todo - {key}, next);
      ms := MoreMembers(m, [], rest);
      MembersMeaningStep(ms, seen);
    }
  }

  // Integers ----------------------------------------------------------------------------------------------------

  /** The decimal digits of a number. */
  function DigitsOf(n: nat): (r: Text)
    ensures r != []
  {
    var last: Unit := 48 + n % 10;
    (if n < 10 then [] else DigitsOf(n / 10)) + [last]
  }

  function Integer(n: int): NumberText {
    NumberText(n < 0, DigitsOf(if n < 0 then -n else n), false, [], false, LOWER_E, [], [])
  }

  function DigitsValue(s: Text): nat
    requires Digits(s)
  {
    if s == [] then 0
    else
      assert IsDigit(s[|s| - 1]);
      DigitsValue(s[..|s| - 1]) * 10 + (s[|s| - 1] - 48)
  }

  /** The integer that a sign and digits stand for. */
  function IntegerValue(lexeme: Text): int
    requires lexeme != [] && Digits(if lexeme[0] == MINUS then lexeme[1..] else lexeme)
  {
    if lexeme[0] == MINUS then 0 - DigitsValue(lexeme[1..]) else DigitsValue(lexeme)
  }

  lemma {:induction false} DigitsOfReads(n: nat)
    ensures Digits(DigitsOf(n)) && DigitsValue(DigitsOf(n)) == n
    decreases n
  {
    var s := DigitsOf(n);
    if n >= 10 {
      DigitsOfReads(n / 10);
      assert s[..|s| - 1] == DigitsOf(n / 10);
    } else {
      assert s[..|s| - 1] == [];
    }
  }

  /** An integer is read as a number whose text has that integer as its value. */
  lemma IntegerReads(n: int)
    ensures GoodNumber(Integer(n))
    ensures var t := NumText(Integer(n));
            && Parse(t) == Ok(Num(t), |t|)
            && t != [] && Digits(if t[0] == MINUS then t[1..] else t) && IntegerValue(t) == n
  {
    hide Parse, DigitsOf, DigitsValue;
    var digits := DigitsOf(if n < 0 then -n else n);
    DigitsOfReads(if n < 0 then -n else n);
    var t := NumText(Integer(n));
    assert t == (if n < 0 then [MINUS] else []) + digits;
    if n < 0 {
      assert t[1..] == digits;
    } else {
      assert t == digits && t[0] in digits;
    }
    ParseInvertsPrint(NumDoc(Integer(n)), [], []);
    assert [] + t + [] == t;
  }
}
