/**
 JSON as the worker's parser reads it, over UTF-16 code units: the outcome of parsing from a position,
 the texts that print a value, and the round trip between them.
 */
module JsonText {

  type Unit = u: int | 0 <= u < 0x10000
  type Text = seq<Unit>

  const QUOTE: Unit := 34
  const BACKSLASH: Unit := 92
  const SLASH: Unit := 47
  const COMMA: Unit := 44
  const COLON: Unit := 58
  const MINUS: Unit := 45
  const PLUS: Unit := 43
  const DOT: Unit := 46
  const OPEN_ARRAY: Unit := 91
  const CLOSE_ARRAY: Unit := 93
  const OPEN_OBJECT: Unit := 123
  const CLOSE_OBJECT: Unit := 125
  const SPACE: Unit := 32
  const LOWER_E: Unit := 101
  const UPPER_E: Unit := 69
  const LOWER_U: Unit := 117

  const TRUE: Text := [116, 114, 117, 101]
  const FALSE: Text := [102, 97, 108, 115, 101]
  const NULL: Text := [110, 117, 108, 108]

  /** Assigning this property of an object sets its prototype, as long as the object inherits the accessor. */
  const PROTO: Text := [95, 95, 112, 114, 111, 116, 111, 95, 95]

  /** A parsed value. Numbers are kept as the text that is converted. */
  datatype Json =
    | Null
    | Bool(b: bool)
    | Num(lexeme: Text)
    | Str(s: Text)
    | Arr(items: seq<Json>)
    | Obj(props: Properties)

  /** The own properties of a parsed object, and its prototype. */
  datatype Properties = Properties(members: map<Text, Json>, proto: Prototype)

  /** The standard prototype, none at all, or a value of the same text. */
  datatype Prototype = Standard | Absent | Of(v: Json)

  const EMPTY: Properties := Properties(map[], Standard)

  /** Whether an object with this prototype still inherits the accessor. Arrays have their own standard prototype. */
  predicate Accessor(p: Prototype) {
    match p
    case Standard => true
    case Absent => false
    case Of(v) => v.Obj? ==> Accessor(v.props.proto)
  }

  datatype Error =
    | Expected(c: Unit)
    | BadNumber
    | BadString
    | Unexpected
    | BadArray
    | BadObject
    | DuplicateKey(key: Text)
    | NotAtEnd

  /** A value and the position of the character after it, or an error with the parser's `at`. */
  datatype Outcome<+T> = Ok(value: T, pos: nat) | Err(error: Error, at: nat)

  /** The character at a position; END past the end of the text. */
  const END: int := -1

  function CharAt(t: Text, i: nat): int {
    if i < |t| then t[i] else END
  }

  function IsWhite(c: int): bool {
    0 <= c <= 32
  }

  function IsDigit(c: int): bool {
    48 <= c <= 57
  }

  function SkipWhite(t: Text, i: nat): (j: nat)
    requires i <= |t|
    ensures i <= j <= |t|
    decreases |t| - i
  {
    if IsWhite(CharAt(t, i)) then SkipWhite(t, i + 1) else i
  }

  function SkipDigits(t: Text, i: nat): (j: nat)
    requires i <= |t|
    ensures i <= j <= |t|
    decreases |t| - i
  {
    if IsDigit(CharAt(t, i)) then SkipDigits(t, i + 1) else i
  }

  function AfterSign(t: Text, i: nat): (j: nat)
    requires i <= |t|
    ensures i <= j <= |t|
  {
    if CharAt(t, i) == MINUS then i + 1 else i
  }

  function AfterFraction(t: Text, i: nat): (j: nat)
    requires i <= |t|
    ensures i <= j <= |t|
  {
    if CharAt(t, i) == DOT then SkipDigits(t, i + 1) else i
  }

  function IsExponentMark(c: int): bool {
    c == LOWER_E || c == UPPER_E
  }

  function AfterExponentSign(t: Text, i: nat): (j: nat)
    requires i <= |t|
    ensures i <= j <= |t|
  {
    if CharAt(t, i) == MINUS || CharAt(t, i) == PLUS then i + 1 else i
  }

  function AfterExponent(t: Text, i: nat): (j: nat)
    requires i <= |t|
    ensures i <= j <= |t|
  {
    if IsExponentMark(CharAt(t, i)) then SkipDigits(t, AfterExponentSign(t, i + 1)) else i
  }

  /** Whether the collected text converts to a number: digits before or after the point, and in an exponent. */
  predicate Converts(t: Text, i: nat)
    requires i <= |t|
  {
    var i0 := AfterSign(t, i);
    var i1 := SkipDigits(t, i0);
    var i2 := AfterFraction(t, i1);
    && (i1 > i0 || i2 > i1 + 1)
    && (IsExponentMark(CharAt(t, i2)) ==> AfterExponent(t, i2) > AfterExponentSign(t, i2 + 1))
  }

  function ParseNumber(t: Text, i: nat): (r: Outcome<Json>)
    requires i <= |t|
    ensures r.Ok? ==> i < r.pos <= |t|
  {
    var end := AfterExponent(t, AfterFraction(t, SkipDigits(t, AfterSign(t, i))));
    if Converts(t, i) then Ok(Num(t[i..end]), end) else Err(BadNumber, end + 1)
  }

  function HexValue(c: int): int {
    if 48 <= c <= 57 then c - 48
    else if 65 <= c <= 70 then c - 55
    else if 97 <= c <= 102 then c - 87
    else -1
  }

  /** Up to `n` hex digits from `i` on: their value, and the position of the last character consumed. */
  function ParseHex(t: Text, i: nat, n: nat, acc: nat): (r: (nat, nat))
    requires 1 <= i
    ensures i - 1 <= r.1 <= i + n - 1
    decreases n
  {
    if n == 0 then (acc, i - 1)
    else if HexValue(CharAt(t, i)) < 0 then (acc, i)
    else ParseHex(t, i + 1, n - 1, acc * 16 + HexValue(CharAt(t, i)))
  }

  /** The character a two-character escape stands for, or END. */
  function Escapee(c: int): int {
    if c == QUOTE || c == BACKSLASH || c == SLASH then c
    else if c == 98 then 8
    else if c == 102 then 12
    else if c == 110 then 10
    else if c == 114 then 13
    else if c == 116 then 9
    else END
  }

  /** The rest of a string, from inside its quotes. */
  function ParseChars(t: Text, j: nat, acc: Text): (r: Outcome<Text>)
    ensures r.Ok? ==> j < r.pos <= |t|
    decreases |t| - j
  {
    var c := CharAt(t, j);
    if c == END then Err(BadString, j + 1)
    else if c == QUOTE then Ok(acc, j + 1)
    else if c == BACKSLASH then
      var d := CharAt(t, j + 1);
      if d == LOWER_U then
        var (u, last) := ParseHex(t, j + 2, 4, 0);
        ParseChars(t, last + 1, acc + [u % 0x10000])
      else if Escapee(d) != END then ParseChars(t, j + 2, acc + [Escapee(d)])
      else Err(BadString, j + 2)
    else ParseChars(t, j + 1, acc + [c])
  }

  function ParseString(t: Text, i: nat): (r: Outcome<Text>)
    ensures r.Ok? ==> i < r.pos <= |t|
  {
    if CharAt(t, i) == QUOTE then ParseChars(t, i + 1, []) else Err(BadString, i + 1)
  }

  /** Consumes the characters of a word one by one. */
  function ParseWord(t: Text, i: nat, word: Text, value: Json): (r: Outcome<Json>)
    requires i <= |t|
    ensures r.Ok? ==> r.pos == i + |word| <= |t|
    decreases |word|
  {
    if word == [] then Ok(value, i)
    else if CharAt(t, i) != word[0] then Err(Expected(word[0]), i + 1)
    else ParseWord(t, i + 1, word[1..], value)
  }

  function ParseValue(t: Text, i: nat): (r: Outcome<Json>)
    requires i <= |t|
    ensures r.Ok? ==> i < r.pos <= |t|
    decreases |t| - i, 2
  {
    var j := SkipWhite(t, i);
    var c := CharAt(t, j);
    if c == OPEN_OBJECT then ParseObject(t, j)
    else if c == OPEN_ARRAY then ParseArray(t, j)
    else if c == QUOTE then
      match ParseString(t, j)
      case Ok(s, pos) => Ok(Str(s), pos)
      case Err(error, at) => Err(error, at)
    else if c == MINUS || IsDigit(c) then ParseNumber(t, j)
    else if c == TRUE[0] then ParseWord(t, j, TRUE, Bool(true))
    else if c == FALSE[0] then ParseWord(t, j, FALSE, Bool(false))
    else if c == NULL[0] then ParseWord(t, j, NULL, Null)
    else Err(Unexpected, j + 1)
  }

  function ParseArray(t: Text, i: nat): (r: Outcome<Json>)
    requires i < |t|
    ensures r.Ok? ==> i < r.pos <= |t|
    decreases |t| - i, 1
  {
    var j := SkipWhite(t, i + 1);
    if CharAt(t, j) == CLOSE_ARRAY then Ok(Arr([]), j + 1) else ParseItems(t, j, [])
  }

  function ParseItems(t: Text, i: nat, acc: seq<Json>): (r: Outcome<Json>)
    requires i <= |t|
    ensures r.Ok? ==> i < r.pos <= |t|
    decreases |t| - i, 3
  {
    if CharAt(t, i) == END then Err(BadArray, i + 1)
    else
      match ParseValue(t, i)
      case Err(error, at) => Err(error, at)
      case Ok(v, pos) =>
        var j := SkipWhite(t, pos);
        if CharAt(t, j) == CLOSE_ARRAY then Ok(Arr(acc + [v]), j + 1)
        else if CharAt(t, j) != COMMA then Err(Expected(COMMA), j + 1)
        else ParseItems(t, SkipWhite(t, j + 1), acc + [v])
  }

  /**
   Assigning a property. The accessor takes objects, arrays and null as the new prototype and ignores other
   values; an object that does not inherit it gets a property of its own.
   */
  function SetOwn(p: Properties, key: Text, value: Json): Properties {
    if key != PROTO || !Accessor(p.proto) then p.(members := p.members[key := value])
    else if value.Null? then p.(proto := Absent)
    else if value.Obj? || value.Arr? then p.(proto := Of(value))
    else p
  }

  function ParseObject(t: Text, i: nat): (r: Outcome<Json>)
    requires i < |t|
    ensures r.Ok? ==> i < r.pos <= |t|
    decreases |t| - i, 1
  {
    var j := SkipWhite(t, i + 1);
    if CharAt(t, j) == CLOSE_OBJECT then Ok(Obj(EMPTY), j + 1) else ParseMembers(t, j, EMPTY)
  }

  function ParseMembers(t: Text, i: nat, acc: Properties): (r: Outcome<Json>)
    requires i <= |t|
    ensures r.Ok? ==> i < r.pos <= |t|
    decreases |t| - i, 3
  {
    if CharAt(t, i) == END then Err(BadObject, i + 1)
    else
      match ParseString(t, i)
      case Err(error, at) => Err(error, at)
      case Ok(key, afterKey) =>
        var c := SkipWhite(t, afterKey);
        if CharAt(t, c) != COLON then Err(Expected(COLON), c + 1)
        else if key in acc.members then Err(DuplicateKey(key), c + 2)
        else
          match ParseValue(t, c + 1)
          case Err(error, at) => Err(error, at)
          case Ok(v, pos) =>
            var j := SkipWhite(t, pos);
            if CharAt(t, j) == CLOSE_OBJECT then Ok(Obj(SetOwn(acc, key, v)), j + 1)
            else if CharAt(t, j) != COMMA then Err(Expected(COMMA), j + 1)
            else ParseMembers(t, SkipWhite(t, j + 1), SetOwn(acc, key, v))
  }

  /** A whole text: one value with white space around it. */
  function Parse(t: Text): (r: Outcome<Json>)
    ensures r.Ok? ==> r.pos == |t|
  {
    match ParseValue(t, 0)
    case Err(error, at) => Err(error, at)
    case Ok(v, pos) =>
      var j := SkipWhite(t, pos);
      if CharAt(t, j) != END then Err(NotAtEnd, j + 1) else Ok(v, j)
  }
}
