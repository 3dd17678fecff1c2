/**
 The recursive descent parser itself: `at` and `ch` are shared by all its methods and advance one
 character at a time. Every method is proved against the function of JsonText that says what is read
 from a position. A thrown SyntaxError is an answer that every caller hands on.
 */
module JsonParsers {
  import opened JsonText

  datatype Answer<+T> = Returned(value: T) | Thrown(error: Error) {
    predicate IsFailure() {
      Thrown?
    }

    function PropagateFailure<U>(): Answer<U>
      requires Thrown?
    {
      Thrown(error)
    }

    function Extract(): T
      requires Returned?
    {
      value
    }
  }

  // A number is converted from the characters collected for it, not from the text ------------------------------

  lemma {:induction false} SkipDigitsInSlice(t: Text, from: nat, k: nat, end: nat)
    requires from <= k <= end <= |t| && SkipDigits(t, k) <= end
    ensures SkipDigits(t[from..end], k - from) == SkipDigits(t, k) - from
    decreases end - k
  {
    if k < end && IsDigit(CharAt(t, k)) {
      SkipDigitsInSlice(t, from, k + 1, end);
    }
  }

  function NumberEnd(t: Text, i: nat): (end: nat)
    requires i <= |t|
    ensures i <= end <= |t|
  {
    AfterExponent(t, AfterFraction(t, SkipDigits(t, AfterSign(t, i))))
  }

  lemma ExponentInSlice(t: Text, i: nat, i2: nat)
    requires i <= i2 <= |t|
    ensures var s := t[i..AfterExponent(t, i2)];
            && IsExponentMark(CharAt(s, i2 - i)) == IsExponentMark(CharAt(t, i2))
            && AfterExponent(s, i2 - i) == |s|
            && (IsExponentMark(CharAt(t, i2)) ==> AfterExponentSign(s, i2 + 1 - i) == AfterExponentSign(t, i2 + 1) - i)
  {
    hide SkipDigits;
    var end := AfterExponent(t, i2);
    var s := t[i..end];
    if IsExponentMark(CharAt(t, i2)) {
      var i3 := AfterExponentSign(t, i2 + 1);
      SkipDigitsInSlice(t, i, i3, end);
      assert AfterExponentSign(s, i2 + 1 - i) == i3 - i;
    }
  }

  /** The sign, the digits and the fraction of the collected characters end where those of the text do. */
  lemma MarksInSlice(t: Text, i: nat)
    requires i <= |t|
    ensures var s := t[i..NumberEnd(t, i)];
            var i0, i1, i2 := AfterSign(t, i), SkipDigits(t, AfterSign(t, i)), AfterFraction(t, SkipDigits(t, AfterSign(t, i)));
            && AfterSign(s, 0) == i0 - i && SkipDigits(s, i0 - i) == i1 - i && AfterFraction(s, i1 - i) == i2 - i
  {
    hide SkipDigits, AfterExponent;
    var end := NumberEnd(t, i);
    var s := t[i..end];
    var i0 := AfterSign(t, i);
    var i1 := SkipDigits(t, i0);
    SkipDigitsInSlice(t, i, i0, end);
    if CharAt(t, i1) == DOT {
      SkipDigitsInSlice(t, i, i1 + 1, end);
    }
  }

  /** Whether the collected characters convert to a number does not depend on what surrounds them. */
  lemma ConvertsByItself(t: Text, i: nat)
    requires i <= |t|
    ensures Converts(t[i..NumberEnd(t, i)], 0) == Converts(t, i)
  {
    hide SkipDigits, AfterSign, AfterFraction, AfterExponent, AfterExponentSign, CharAt;
    MarksInSlice(t, i);
    ExponentInSlice(t, i, AfterFraction(t, SkipDigits(t, AfterSign(t, i))));
  }

  lemma Joined(t: Text, i: nat, j: nat, k: nat)
    requires i <= j <= k <= |t|
    ensures t[i..j] + t[j..k] == t[i..k]
  {
  }

  /** One member of an object, from its key to its value. */
  function MemberAt(t: Text, i: nat, acc: Properties): (r: Outcome<Properties>)
    requires i <= |t|
    ensures r.Ok? ==> i < r.pos <= |t|
  {
    match ParseString(t, i)
    case Err(error, at) => Err(error, at)
    case Ok(key, afterKey) =>
      var c := SkipWhite(t, afterKey);
      if CharAt(t, c) != COLON then Err(Expected(COLON), c + 1)
      else if key in acc.members then Err(DuplicateKey(key), c + 2)
      else
        match ParseValue(t, c + 1)
        case Err(error, at) => Err(error, at)
        case Ok(v, pos) => Ok(SetOwn(acc, key, v), pos)
  }

  lemma HexStep(t: Text, i: nat, n: nat, acc: nat)
    requires 1 <= i && n > 0
    ensures var hex := HexValue(CharAt(t, i));
            ParseHex(t, i, n, acc) == if hex < 0 then (acc, i) else ParseHex(t, i + 1, n - 1, acc * 16 + hex)
  {
  }

  lemma HexDone(t: Text, i: nat, acc: nat)
    requires 1 <= i
    ensures ParseHex(t, i, 0, acc) == (acc, i - 1)
  {
  }

  /** One item more, from a position that is not the end. */
  lemma ItemsOneByOne(t: Text, i: nat, acc: seq<Json>)
    requires i <= |t| && CharAt(t, i) != END
    ensures var v := ParseValue(t, i);
            && (v.Err? ==> ParseItems(t, i, acc) == v)
            && (v.Ok? ==>
                var j := SkipWhite(t, v.pos);
                ParseItems(t, i, acc) ==
                if CharAt(t, j) == CLOSE_ARRAY then Ok(Arr(acc + [v.value]), j + 1)
                else if CharAt(t, j) != COMMA then Err(Expected(COMMA), j + 1)
                else ParseItems(t, SkipWhite(t, j + 1), acc + [v.value]))
  {
    hide SkipWhite, ParseValue, CharAt;
  }

  lemma NoItemsAtEnd(t: Text, i: nat, acc: seq<Json>)
    requires i <= |t| && CharAt(t, i) == END
    ensures ParseItems(t, i, acc) == Err(BadArray, i + 1)
  {
  }

  lemma MembersOneByOne(t: Text, i: nat, acc: Properties)
    requires i <= |t| && CharAt(t, i) != END
    ensures var m := MemberAt(t, i, acc);
            && (m.Err? ==> ParseMembers(t, i, acc) == Err(m.error, m.at))
            && (m.Ok? ==>
                var j := SkipWhite(t, m.pos);
                ParseMembers(t, i, acc) ==
                if CharAt(t, j) == CLOSE_OBJECT then Ok(Obj(m.value), j + 1)
                else if CharAt(t, j) != COMMA then Err(Expected(COMMA), j + 1)
                else ParseMembers(t, SkipWhite(t, j + 1), m.value))
  {
    hide ParseString, SkipWhite, ParseValue, CharAt, SetOwn;
  }

  lemma NoMembersAtEnd(t: Text, i: nat, acc: Properties)
    requires i <= |t| && CharAt(t, i) == END
    ensures ParseMembers(t, i, acc) == Err(BadObject, i + 1)
  {
  }

  /** What a value that starts with a letter is read as. */
  function WordAt(t: Text, i: nat): Outcome<Json>
    requires i <= |t|
  {
    var c := CharAt(t, i);
    if c == TRUE[0] then ParseWord(t, i, TRUE, Bool(true))
    else if c == FALSE[0] then ParseWord(t, i, FALSE, Bool(false))
    else if c == NULL[0] then ParseWord(t, i, NULL, Null)
    else Err(Unexpected, i + 1)
  }

  /** Character `k` of a word. */
  lemma WordStep(t: Text, i: nat, word: Text, k: nat, v: Json)
    requires i <= |t| && k < |word|
    ensures CharAt(t, i) != word[k] ==> ParseWord(t, i, word[k..], v) == Err(Expected(word[k]), i + 1)
    ensures CharAt(t, i) == word[k] ==> i < |t| && ParseWord(t, i, word[k..], v) == ParseWord(t, i + 1, word[k + 1..], v)
    ensures CharAt(t, i) == word[k] && k + 1 == |word| ==> ParseWord(t, i, word[k..], v) == Ok(v, i + 1)
  {
    assert word[k..][1..] == word[k + 1..];
  }

  class Parser {
    var text: Text
    var at: nat
    var ch: int

    /** The parser has been given its text and has read nothing: `ch` is a space that is not in the text. */
    constructor (source: Text)
      ensures text == source && at == 0 && ch == SPACE && Valid()
    {
      text := source;
      at := 0;
      ch := SPACE;
    }

    /** `ch` is the character before `at`. */
    ghost predicate Looking()
      reads this
    {
      1 <= at <= |text| + 1 && ch == CharAt(text, at - 1)
    }

    ghost predicate Valid()
      reads this
    {
      Looking() || (at == 0 && ch == SPACE)
    }

    /** The position still to be read. */
    ghost function Pos(): (i: nat)
      reads this
    {
      if at == 0 then 0 else at - 1
    }

    /** The parser stands where an outcome says, with the value or the error it says. */
    ghost predicate Agrees<T>(o: Outcome<T>, a: Answer<T>)
      reads this
    {
      match o
      case Ok(v, pos) => a == Returned(v) && at == pos + 1 && ch == CharAt(text, pos)
      case Err(error, where) => a == Thrown(error) && at == where
    }

    method Next()
      modifies this`at, this`ch
      ensures at == old(at) + 1 && ch == CharAt(text, old(at))
    {
      ch := if at < |text| then text[at] else END;
      at := at + 1;
    }

    method Expect(c: Unit) returns (a: Answer<()>)
      modifies this`at, this`ch
      ensures old(ch) == c ==> a == Returned(()) && at == old(at) + 1 && ch == CharAt(text, old(at))
      ensures old(ch) != c ==> a == Thrown(Expected(c)) && at == old(at) && ch == old(ch)
    {
      if ch != c {
        return Thrown(Expected(c));
      }
      Next();
      a := Returned(());
    }

    method White()
      requires Valid()
      modifies this`at, this`ch
      ensures Looking() && Pos() == SkipWhite(text, old(Pos())) && (ch != END ==> Pos() < |text|)
    {
      while IsWhite(ch)
        invariant Valid()
        invariant SkipWhite(text, Pos()) == SkipWhite(text, old(Pos()))
        decreases |text| + 1 - at
      {
        Next();
      }
    }

    method Digits() returns (digits: Text)
      requires Looking()
      modifies this`at, this`ch
      ensures Looking() && Pos() == SkipDigits(text, old(Pos())) && digits == text[old(Pos())..Pos()]
    {
      digits := [];
      while IsDigit(ch)
        invariant Looking() && old(Pos()) <= Pos() && digits == text[old(Pos())..Pos()]
        invariant SkipDigits(text, Pos()) == SkipDigits(text, old(Pos()))
        decreases |text| + 1 - at
      {
        digits := digits + [ch];
        Next();
      }
    }

    method Number() returns (a: Answer<Json>)
      requires Looking()
      modifies this`at, this`ch
      ensures Agrees(ParseNumber(text, old(Pos())), a)
    {
      hide Converts, SkipDigits, AfterFraction, AfterExponent, AfterSign;
      ghost var i := Pos();
      var collected := Sign();
      ghost var i0 := Pos();
      var digits := Digits();
      collected := collected + digits;
      Joined(text, i, i0, Pos());
      ghost var i1 := Pos();
      digits := Fraction();
      collected := collected + digits;
      Joined(text, i, i1, Pos());
      ghost var i2 := Pos();
      digits := Exponent();
      collected := collected + digits;
      Joined(text, i, i2, Pos());
      ConvertsByItself(text, i);
      if !Converts(collected, 0) {
        return Thrown(BadNumber);
      }
      a := Returned(Num(collected));
    }

    method Sign() returns (collected: Text)
      requires Looking()
      modifies this`at, this`ch
      ensures Looking() && Pos() == AfterSign(text, old(Pos())) && collected == text[old(Pos())..Pos()]
    {
      collected := [];
      if ch == MINUS {
        collected := [MINUS];
        Next();
      }
    }

    method Fraction() returns (collected: Text)
      requires Looking()
      modifies this`at, this`ch
      ensures Looking() && Pos() == AfterFraction(text, old(Pos())) && collected == text[old(Pos())..Pos()]
    {
      hide SkipDigits;
      collected := [];
      if ch == DOT {
        Next();
        var digits := Digits();
        collected := [DOT] + digits;
      }
    }

    method Exponent() returns (collected: Text)
      requires Looking()
      modifies this`at, this`ch
      ensures Looking() && Pos() == AfterExponent(text, old(Pos())) && collected == text[old(Pos())..Pos()]
    {
      hide SkipDigits;
      ghost var i := Pos();
      collected := [];
      if IsExponentMark(ch) {
        collected := collected + [ch];
        Next();
        assert collected == text[i..Pos()];
        if ch == MINUS || ch == PLUS {
          collected := collected + [ch];
          Next();
          assert collected == text[i..Pos()];
        }
        ghost var j := Pos();
        var digits := Digits();
        Joined(text, i, j, Pos());
        collected := collected + digits;
      }
    }

    method HexDigits() returns (uffff: nat)
      requires 1 <= at
      modifies this`at, this`ch
      ensures (uffff, at - 1) == ParseHex(text, old(at), 4, 0)
      ensures old(at) <= at
    {
      hide ParseHex, HexValue, CharAt;
      uffff := 0;
      var i := 0;
      while i < 4
        invariant 0 <= i <= 4 && old(at) <= at
        invariant ParseHex(text, at, 4 - i, uffff) == ParseHex(text, old(at), 4, 0)
      {
        HexStep(text, at, 4 - i, uffff);
        Next();
        var hex := HexValue(ch);
        if hex < 0 {
          return;
        }
        uffff := uffff * 16 + hex;
        i := i + 1;
      }
      HexDone(text, at, uffff);
    }

    method String() returns (a: Answer<Text>)
      requires Looking()
      modifies this`at, this`ch
      ensures Agrees(ParseString(text, old(Pos())), a)
    {
      hide ParseHex;
      var s: Text := [];
      if ch == QUOTE {
        Next();
        while ch != END
          invariant 1 <= at && ch == CharAt(text, at - 1)
          invariant ParseString(text, old(Pos())) == ParseChars(text, at - 1, s)
          decreases |text| + 1 - at
        {
          if ch == QUOTE {
            Next();
            return Returned(s);
          } else if ch == BACKSLASH {
            Next();
            if ch == LOWER_U {
              var uffff := HexDigits();
              s := s + [uffff % 0x10000];
            } else if Escapee(ch) != END {
              s := s + [Escapee(ch)];
            } else {
              break;
            }
          } else {
            s := s + [ch];
          }
          Next();
        }
      }
      a := Thrown(BadString);
    }

    method True() returns (a: Answer<Json>)
      requires Looking() && ch == 116
      modifies this`at, this`ch
      ensures Agrees(ParseWord(text, old(Pos()), TRUE, Bool(true)), a)
    {
      hide ParseWord;
      ghost var i := Pos();
      assert TRUE[0..] == TRUE;
      WordStep(text, i, TRUE, 0, Bool(true));
      Next();
      WordStep(text, i + 1, TRUE, 1, Bool(true));
      var _ :- Expect(114);
      WordStep(text, i + 2, TRUE, 2, Bool(true));
      var _ :- Expect(117);
      WordStep(text, i + 3, TRUE, 3, Bool(true));
      var _ :- Expect(101);
      a := Returned(Bool(true));
    }

    method False() returns (a: Answer<Json>)
      requires Looking() && ch == 102
      modifies this`at, this`ch
      ensures Agrees(ParseWord(text, old(Pos()), FALSE, Bool(false)), a)
    {
      hide ParseWord;
      ghost var i := Pos();
      assert FALSE[0..] == FALSE;
      WordStep(text, i, FALSE, 0, Bool(false));
      Next();
      WordStep(text, i + 1, FALSE, 1, Bool(false));
      var _ :- Expect(97);
      WordStep(text, i + 2, FALSE, 2, Bool(false));
      var _ :- Expect(108);
      WordStep(text, i + 3, FALSE, 3, Bool(false));
      var _ :- Expect(115);
      WordStep(text, i + 4, FALSE, 4, Bool(false));
      var _ :- Expect(101);
      a := Returned(Bool(false));
    }

    method NullWord() returns (a: Answer<Json>)
      requires Looking() && ch == 110
      modifies this`at, this`ch
      ensures Agrees(ParseWord(text, old(Pos()), NULL, Null), a)
    {
      hide ParseWord;
      ghost var i := Pos();
      assert NULL[0..] == NULL;
      WordStep(text, i, NULL, 0, Null);
      Next();
      WordStep(text, i + 1, NULL, 1, Null);
      var _ :- Expect(117);
      WordStep(text, i + 2, NULL, 2, Null);
      var _ :- Expect(108);
      WordStep(text, i + 3, NULL, 3, Null);
      var _ :- Expect(108);
      a := Returned(Null);
    }

    method Word() returns (a: Answer<Json>)
      requires Looking()
      modifies this`at, this`ch
      ensures Agrees(WordAt(text, old(Pos())), a)
    {
      hide ParseWord;
      if ch == 116 {
        a := True();
      } else if ch == 102 {
        a := False();
      } else if ch == 110 {
        a := NullWord();
      } else {
        a := Thrown(Unexpected);
      }
    }

    method Array() returns (a: Answer<Json>)
      requires Looking() && ch == OPEN_ARRAY
      modifies this`at, this`ch
      ensures Agrees(ParseArray(text, old(Pos())), a)
      decreases |text| - Pos(), 1
    {
      hide SkipWhite, ParseItems;
      Next();
      White();
      if ch == CLOSE_ARRAY {
        Next();
        return Returned(Arr([]));
      }
      a := Items();
    }

    /** The items of an array, and its end. */
    method Items() returns (a: Answer<Json>)
      requires Looking()
      modifies this`at, this`ch
      ensures Agrees(ParseItems(text, old(Pos()), []), a)
      decreases |text| - Pos(), 3
    {
      hide SkipWhite, ParseValue, ParseItems;
      ghost var i := Pos();
      var items := [];
      while ch != END
        invariant Looking() && i <= Pos()
        invariant ParseItems(text, Pos(), items) == ParseItems(text, i, [])
        decreases |text| - Pos()
      {
        ItemsOneByOne(text, Pos(), items);
        var v :- Value();
        items := items + [v];
        White();
        if ch == CLOSE_ARRAY {
          Next();
          return Returned(Arr(items));
        }
        var _ :- Expect(COMMA);
        White();
      }
      NoItemsAtEnd(text, Pos(), items);
      a := Thrown(BadArray);
    }

    method Object() returns (a: Answer<Json>)
      requires Looking() && ch == OPEN_OBJECT
      modifies this`at, this`ch
      ensures Agrees(ParseObject(text, old(Pos())), a)
      decreases |text| - Pos(), 1
    {
      hide SkipWhite, ParseMembers;
      Next();
      White();
      if ch == CLOSE_OBJECT {
        Next();
        return Returned(Obj(EMPTY));
      }
      a := Members();
    }

    /** The members of an object, and its end. */
    method Members() returns (a: Answer<Json>)
      requires Looking()
      modifies this`at, this`ch
      ensures Agrees(ParseMembers(text, old(Pos()), EMPTY), a)
      decreases |text| - Pos(), 4
    {
      hide SkipWhite, ParseMembers, MemberAt;
      ghost var i := Pos();
      var members := EMPTY;
      while ch != END
        invariant Looking() && i <= Pos()
        invariant ParseMembers(text, Pos(), members) == ParseMembers(text, i, EMPTY)
        decreases |text| - Pos()
      {
        MembersOneByOne(text, Pos(), members);
        members :- Member(members);
        White();
        if ch == CLOSE_OBJECT {
          Next();
          return Returned(Obj(members));
        }
        var _ :- Expect(COMMA);
        White();
      }
      NoMembersAtEnd(text, Pos(), members);
      a := Thrown(BadObject);
    }

    method Member(members: Properties) returns (a: Answer<Properties>)
      requires Looking()
      modifies this`at, this`ch
      ensures Agrees(MemberAt(text, old(Pos()), members), a)
      decreases |text| - Pos(), 3
    {
      hide SkipWhite, ParseValue, ParseString;
      var key :- String();
      White();
      var _ :- Expect(COLON);
      if key in members.members {
        return Thrown(DuplicateKey(key));
      }
      var v :- Value();
      a := Returned(SetOwn(members, key, v));
    }

    method Value() returns (a: Answer<Json>)
      requires Valid()
      modifies this`at, this`ch
      ensures Agrees(ParseValue(text, old(Pos())), a)
      decreases |text| - Pos(), 2
    {
      hide SkipWhite, ParseObject, ParseArray, ParseString, ParseNumber, ParseWord;
      White();
      if ch == OPEN_OBJECT {
        a := Object();
      } else if ch == OPEN_ARRAY {
        a := Array();
      } else if ch == QUOTE {
        var s :- String();
        a := Returned(Str(s));
      } else if ch == MINUS || IsDigit(ch) {
        a := Number();
      } else {
        a := Word();
      }
    }

    /** Reads a whole text from the start, whatever was read before. */
    method Parse(source: Text) returns (a: Answer<Json>)
      modifies this
      ensures text == source
      ensures Agrees(JsonText.Parse(source), a)
    {
      hide SkipWhite, ParseValue;
      text := source;
      at := 0;
      ch := SPACE;
      var v :- Value();
      White();
      if ch != END {
        return Thrown(NotAtEnd);
      }
      a := Returned(v);
    }
  }
}
