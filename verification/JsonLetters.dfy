/**
 What the single code units of a JSON text stand for, as numbers: escapes, hexadecimal digits, white space,
 the letters of words and numbers, and the punctuation.
 */
module JsonLetters {
  import opened JsonText

  // Strings ---------------------------------------------------------------------------------------------------------

  /** The letters that may follow a backslash, " \ / b f n r t, and the units they stand for. */
  const LETTERS: Text := [34, 92, 47, 98, 102, 110, 114, 116]
  const MEANINGS: Text := [34, 92, 47, 8, 12, 10, 13, 9]

  /** Wherever a string has a backslash: these letters are read as these units, and no other but u is accepted. */
  lemma EscapesRead(t: Text, j: nat, acc: Text)
    requires j < |t| && t[j] == 92
    ensures forall i | 0 <= i < |LETTERS| && j + 1 < |t| && t[j + 1] == LETTERS[i] ::
              ParseChars(t, j, acc) == ParseChars(t, j + 2, acc + [MEANINGS[i]])
    ensures (j + 1 < |t| && (t[j + 1] in LETTERS || t[j + 1] == 117)) || ParseChars(t, j, acc) == Err(BadString, j + 2)
  {
    OneEscape(t, j, acc);
    if j + 1 < |t| { LetterMeans(t[j + 1]); }
    hide ParseChars, Escapee;
  }

  lemma LetterMeans(d: Unit)
    ensures forall i | 0 <= i < |LETTERS| && d == LETTERS[i] :: Escapee(d) == MEANINGS[i]
    ensures d !in LETTERS ==> Escapee(d) == END
  {
    assert forall i | 0 <= i < |LETTERS| :: LETTERS[i] in LETTERS;
    assert LETTERS[0] == 34 && LETTERS[1] == 92 && LETTERS[2] == 47 && LETTERS[3] == 98
        && LETTERS[4] == 102 && LETTERS[5] == 110 && LETTERS[6] == 114 && LETTERS[7] == 116;
  }

  lemma OneEscape(t: Text, j: nat, acc: Text)
    requires j < |t| && t[j] == 92
    ensures var d := CharAt(t, j + 1);
            d != 117 ==>
              ParseChars(t, j, acc)
              == if Escapee(d) == END then Err(BadString, j + 2) else ParseChars(t, j + 2, acc + [Escapee(d)])
  {
  }

  /** Any other unit but the quotation mark stands for itself; the quotation mark ends the string. */
  lemma OthersRead(t: Text, j: nat, acc: Text)
    requires j < |t| && t[j] != 92
    ensures ParseChars(t, j, acc) == if t[j] == 34 then Ok(acc, j + 1) else ParseChars(t, j + 1, acc + [t[j]])
  {
  }

  /** A string of one escape, as a whole text. */
  lemma EscapeReads(d: Unit)
    requires d != 117
    ensures var r := Parse([34, 92, d, 34]);
            && (forall i | 0 <= i < |LETTERS| && d == LETTERS[i] :: r == Ok(Str([MEANINGS[i]]), 4))
            && (d !in LETTERS ==> r.Err? && r.error == BadString)
  {
    var t: Text := [34, 92, d, 34];
    EscapesRead(t, 1, []);
    assert ParseString(t, 0) == ParseChars(t, 1, []);
    forall i | 0 <= i < |LETTERS| && d == LETTERS[i] ensures Parse(t) == Ok(Str([MEANINGS[i]]), 4) {
      OthersRead(t, 3, [MEANINGS[i]]);
      assert [] + [MEANINGS[i]] == [MEANINGS[i]];
    }
  }

  /** The unit that writes a hexadecimal digit, as a capital letter or not. */
  function HexDigit(d: nat, capital: bool): Unit
    requires d < 16
  {
    if d < 10 then 48 + d else if capital then 55 + d else 87 + d
  }

  /** The four digits of `n`, each in either case, are read as `n`. */
  lemma HexReads(t: Text, j: nat, acc: Text, n: nat, w: bool, x: bool, y: bool, z: bool)
    requires n < 0x10000 && j + 6 <= |t| && t[j] == 92 && t[j + 1] == 117
    requires t[j + 2] == HexDigit(n / 4096, w) && t[j + 3] == HexDigit(n / 256 % 16, x)
    requires t[j + 4] == HexDigit(n / 16 % 16, y) && t[j + 5] == HexDigit(n % 16, z)
    ensures ParseChars(t, j, acc) == ParseChars(t, j + 6, acc + [n])
  {
    hide HexDigit;
    FourDigitsRead(t, j + 2, n, w, x, y, z);
    OneHexEscape(t, j, acc);
  }

  lemma OneHexEscape(t: Text, j: nat, acc: Text)
    requires j < |t| && t[j] == 92 && CharAt(t, j + 1) == 117
    ensures var (u, last) := ParseHex(t, j + 2, 4, 0); ParseChars(t, j, acc) == ParseChars(t, last + 1, acc + [u % 0x10000])
  {
  }

  lemma FourDigitsRead(t: Text, i: nat, n: nat, w: bool, x: bool, y: bool, z: bool)
    requires n < 0x10000 && 1 <= i && i + 4 <= |t|
    requires t[i] == HexDigit(n / 4096, w) && t[i + 1] == HexDigit(n / 256 % 16, x)
    requires t[i + 2] == HexDigit(n / 16 % 16, y) && t[i + 3] == HexDigit(n % 16, z)
    ensures ParseHex(t, i, 4, 0) == (n, i + 3)
  {
    hide HexDigit;
    FourDigits(n);
    DigitsRead(t, i, n / 4096, n / 256 % 16, n / 16 % 16, n % 16, w, x, y, z);
  }

  lemma DigitsRead(t: Text, i: nat, o: nat, p: nat, q: nat, r: nat, w: bool, x: bool, y: bool, z: bool)
    requires o < 16 && p < 16 && q < 16 && r < 16 && 1 <= i && i + 4 <= |t|
    requires t[i] == HexDigit(o, w) && t[i + 1] == HexDigit(p, x) && t[i + 2] == HexDigit(q, y) && t[i + 3] == HexDigit(r, z)
    ensures ParseHex(t, i, 4, 0) == (((o * 16 + p) * 16 + q) * 16 + r, i + 3)
  {
    hide HexDigit;
    DigitReads(t, i, 4, 0, o, w);
    DigitReads(t, i + 1, 3, o, p, x);
    DigitReads(t, i + 2, 2, o * 16 + p, q, y);
    DigitReads(t, i + 3, 1, (o * 16 + p) * 16 + q, r, z);
  }

  lemma FourDigits(n: nat)
    ensures n / 4096 * 16 + n / 256 % 16 == n / 256 && n / 256 * 16 + n / 16 % 16 == n / 16 && n / 16 * 16 + n % 16 == n
    ensures n < 0x10000 ==> n / 4096 < 16
  {
  }

  lemma DigitReads(t: Text, i: nat, k: nat, acc: nat, d: nat, capital: bool)
    requires 1 <= i < |t| && k > 0 && d < 16 && t[i] == HexDigit(d, capital)
    ensures ParseHex(t, i, k, acc) == ParseHex(t, i + 1, k - 1, acc * 16 + d)
  {
  }

  /** Any other unit, or the end of the text, ends the number early and is consumed. */
  lemma NoDigitEnds(t: Text, i: nat, k: nat, acc: nat)
    requires 1 <= i && k > 0
    requires forall d, capital | 0 <= d < 16 && i < |t| :: t[i] != HexDigit(d, capital)
    ensures ParseHex(t, i, k, acc) == (acc, i)
  {
    if i < |t| {
      var c := t[i];
      assert 48 <= c <= 57 ==> c == HexDigit(c - 48, false);
      assert 65 <= c <= 70 ==> c == HexDigit(c - 55, true);
      assert 97 <= c <= 102 ==> c == HexDigit(c - 87, false);
    }
  }

  /** A string of one hexadecimal escape, as a whole text. */
  lemma HexEscapeReads(n: nat, w: bool, x: bool, y: bool, z: bool)
    requires n < 0x10000
    ensures var digits: Text := [HexDigit(n / 4096, w), HexDigit(n / 256 % 16, x), HexDigit(n / 16 % 16, y), HexDigit(n % 16, z)];
            Parse([34, 92, 117] + digits + [34]) == Ok(Str([n]), 8)
  {
    var digits: Text := [HexDigit(n / 4096, w), HexDigit(n / 256 % 16, x), HexDigit(n / 16 % 16, y), HexDigit(n % 16, z)];
    var t: Text := [34, 92, 117] + digits + [34];
    hide HexDigit;
    HexReads(t, 1, [], n, w, x, y, z);
    OthersRead(t, 7, [n]);
    assert [] + [n] == [n];
    assert ParseString(t, 0) == ParseChars(t, 1, []);
  }

  // White space, words, numbers and punctuation -----------------------------------------------------------------------

  /** Units up to the space may stand around a value, and no others: here around the word true. */
  lemma WhiteReads(u: Unit, v: Unit)
    ensures Parse([u, 116, 114, 117, 101, v]) == Ok(Bool(true), 6) <==> u <= 32 && v <= 32
  {
    var t: Text := [u, 116, 114, 117, 101, v];
    TrueReads(t, 1);
    if u <= 32 {
      assert SkipWhite(t, 0) == 1;
      assert ParseValue(t, 0) == ParseValue(t, 1);
      assert ParseValue(t, 0) == Ok(Bool(true), 5);
      assert SkipWhite(t, 5) == if v <= 32 then 6 else 5;
    } else {
      OtherStart(t);
      hide ParseValue;
    }
  }

  lemma OtherStart(t: Text)
    requires |t| > 1 && t[0] > 32 && t[1] != 114
    ensures var r := ParseValue(t, 0); r.Ok? ==> r.value != Bool(true)
  {
    hide ParseItems, ParseMembers, ParseString, ParseNumber;
    assert SkipWhite(t, 0) == 0;
    if t[0] == 91 {
      ItemsMakeArray(t, SkipWhite(t, 1), []);
    } else if t[0] == 123 {
      MembersMakeObject(t, SkipWhite(t, 1), EMPTY);
    } else if t[0] == 116 {
      assert ParseWord(t, 1, TRUE[1..], Bool(true)).Err? && TRUE[1] == 114 && TRUE[1..][0] == TRUE[1];
    } else if t[0] == 45 || 48 <= t[0] <= 57 {
      assert ParseNumber(t, 0).Ok? ==> ParseNumber(t, 0).value.Num? by { NumberMakesNum(t, 0); }
    } else if t[0] == 102 {
      WordMakes(t, 0, FALSE, Bool(false));
    } else if t[0] == 110 {
      WordMakes(t, 0, NULL, Null);
    }
  }

  lemma NumberMakesNum(t: Text, i: nat)
    requires i <= |t|
    ensures ParseNumber(t, i).Ok? ==> ParseNumber(t, i).value.Num?
  {
  }

  lemma {:induction false} WordMakes(t: Text, i: nat, word: Text, value: Json)
    requires i <= |t|
    ensures ParseWord(t, i, word, value).Ok? ==> ParseWord(t, i, word, value).value == value
    decreases |word|
  {
    if word != [] && CharAt(t, i) == word[0] {
      WordMakes(t, i + 1, word[1..], value);
    }
  }

  lemma {:induction false} ItemsMakeArray(t: Text, i: nat, acc: seq<Json>)
    requires i <= |t|
    ensures ParseItems(t, i, acc).Ok? ==> ParseItems(t, i, acc).value.Arr?
    decreases |t| - i
  {
    if CharAt(t, i) != END && ParseValue(t, i).Ok? {
      var j := SkipWhite(t, ParseValue(t, i).pos);
      if CharAt(t, j) == COMMA {
        ItemsMakeArray(t, SkipWhite(t, j + 1), acc + [ParseValue(t, i).value]);
      }
    }
  }

  lemma {:induction false} MembersMakeObject(t: Text, i: nat, acc: Properties)
    requires i <= |t|
    ensures ParseMembers(t, i, acc).Ok? ==> ParseMembers(t, i, acc).value.Obj?
    decreases |t| - i
  {
    hide ParseString, ParseValue;
    if ParseMembers(t, i, acc).Ok? {
      var key := ParseString(t, i);
      var c := SkipWhite(t, key.pos);
      var v := ParseValue(t, c + 1);
      var j := SkipWhite(t, v.pos);
      if CharAt(t, j) != CLOSE_OBJECT {
        MembersMakeObject(t, SkipWhite(t, j + 1), SetOwn(acc, key.value, v.value));
      }
    }
  }

  /** What comes after a value is refused, unless it is white space. */
  lemma NothingFollows(u: Unit)
    requires u > 32
    ensures Parse([116, 114, 117, 101, u]) == Err(NotAtEnd, 5)
  {
    TrueReads([116, 114, 117, 101, u], 0);
  }

  lemma TrueReads(t: Text, i: nat)
    requires i + 4 <= |t| && t[i] == 116 && t[i + 1] == 114 && t[i + 2] == 117 && t[i + 3] == 101
    ensures ParseValue(t, i) == Ok(Bool(true), i + 4)
  {
    assert SkipWhite(t, i) == i;
    WordSteps(t, i, [116, 114, 117, 101], Bool(true));
  }

  lemma {:induction false} WordSteps(t: Text, i: nat, word: Text, value: Json)
    requires i + |word| <= |t| && t[i..i + |word|] == word
    ensures ParseWord(t, i, word, value) == Ok(value, i + |word|)
    decreases |word|
  {
    if word != [] {
      assert t[i] == t[i..i + |word|][0];
      assert t[i + 1..i + 1 + |word[1..]|] == t[i..i + |word|][1..];
      WordSteps(t, i + 1, word[1..], value);
    }
  }

  /** The three words. */
  lemma WordsRead()
    ensures Parse([116, 114, 117, 101]) == Ok(Bool(true), 4)
    ensures Parse([102, 97, 108, 115, 101]) == Ok(Bool(false), 5)
    ensures Parse([110, 117, 108, 108]) == Ok(Null, 4)
  {
    TrueReads([116, 114, 117, 101], 0);
    WordReads([102, 97, 108, 115, 101], FALSE, Bool(false));
    WordReads([110, 117, 108, 108], NULL, Null);
  }

  lemma WordReads(t: Text, word: Text, value: Json)
    requires t == word && (word == FALSE || word == NULL) && value == (if word == FALSE then Bool(false) else Null)
    ensures Parse(t) == Ok(value, |t|)
  {
    assert t[0..|t|] == word;
    WordSteps(t, 0, word, value);
    hide ParseWord;
    assert SkipWhite(t, 0) == 0 && SkipWhite(t, |t|) == |t|;
  }

  /** Every digit is a number. */
  lemma DigitReadsAsNumber(d: nat)
    requires d < 10
    ensures Parse([48 + d]) == Ok(Num([48 + d]), 1)
  {
    var t: Text := [48 + d];
    assert SkipDigits(t, 1) == 1 && SkipDigits(t, 0) == 1;
    assert t[0..1] == t;
  }

  predicate DigitsIn(t: Text, i: nat, j: nat) {
    i <= j <= |t| && forall k | i <= k < j :: 48 <= t[k] <= 57
  }

  /**
   The parts of a number: a minus or not, digits up to `w`, a point and digits up to `f` or nothing, and then an e
   of either case, a sign or not, and digits from `x` on, or nothing.
   */
  predicate Numeral(t: Text, w: nat, f: nat, x: nat) {
    && t != [] && (t[0] == 45 || 48 <= t[0] <= 57)
    && DigitsIn(t, if t[0] == 45 then 1 else 0, w)
    && (if w < |t| && t[w] == 46 then w < f && DigitsIn(t, w + 1, f) else f == w)
    && (if f < |t| then
          && (t[f] == 69 || t[f] == 101) && x == (if f + 1 < |t| && (t[f + 1] == 43 || t[f + 1] == 45) then f + 2 else f + 1)
          && DigitsIn(t, x, |t|)
        else x == f)
  }

  /** It is read when there is a digit on either side of the point, and one in the exponent; otherwise it is refused. */
  lemma NumeralReadsIff(t: Text, w: nat, f: nat, x: nat)
    requires Numeral(t, w, f, x)
    ensures var start := if t[0] == 45 then 1 else 0;
            Parse(t)
            == if (w > start || f > w + 1) && (f < |t| ==> x < |t|) then Ok(Num(t), |t|) else Err(BadNumber, |t| + 1)
  {
    var start := if t[0] == 45 then 1 else 0;
    DigitsSkip(t, start, w);
    if f > w {
      DigitsSkip(t, w + 1, f);
    }
    if f < |t| {
      DigitsSkip(t, x, |t|);
    }
    hide SkipDigits;
    assert AfterSign(t, 0) == start && AfterFraction(t, w) == f && AfterExponent(t, f) == |t|;
    assert t[0..|t|] == t;
    assert SkipWhite(t, 0) == 0 && SkipWhite(t, |t|) == |t|;
    assert ParseValue(t, 0) == ParseNumber(t, 0);
  }

  lemma {:induction false} DigitsSkip(t: Text, i: nat, j: nat)
    requires DigitsIn(t, i, j) && (j < |t| ==> !(48 <= t[j] <= 57))
    ensures SkipDigits(t, i) == j
    decreases j - i
  {
    if i < j {
      DigitsSkip(t, i + 1, j);
    }
  }

  /** -.5E+3 is read, -E3 is not. */
  lemma NumbersRead()
    ensures Parse([45, 46, 53, 69, 43, 51]) == Ok(Num([45, 46, 53, 69, 43, 51]), 6)
    ensures Parse([45, 69, 51]) == Err(BadNumber, 4)
  {
    NumeralReadsIff([45, 46, 53, 69, 43, 51], 1, 3, 5);
    NumeralReadsIff([45, 69, 51], 1, 1, 2);
  }

  /** Brackets and commas: [], [1] and [1,2]. */
  lemma ArraysRead()
    ensures Parse([91, 93]) == Ok(Arr([]), 2)
    ensures Parse([91, 49, 93]) == Ok(Arr([Num([49])]), 3)
    ensures Parse([91, 49, 44, 50, 93]) == Ok(Arr([Num([49]), Num([50])]), 5)
  {
    var t: Text, u: Text := [91, 49, 93], [91, 49, 44, 50, 93];
    DigitIsRead(t, 1);
    DigitIsRead(u, 1);
    DigitIsRead(u, 3);
    assert [] + [Num([49])] == [Num([49])] && [Num([49])] + [Num([50])] == [Num([49]), Num([50])];
    assert ParseItems(u, 3, [Num([49])]) == Ok(Arr([Num([49]), Num([50])]), 5);
    assert ParseItems(u, 1, []) == ParseItems(u, 3, [Num([49])]);
  }

  lemma DigitIsRead(t: Text, i: nat)
    requires i + 1 < |t| && 48 <= t[i] <= 57 && t[i + 1] in {44, 93, 125}
    ensures ParseValue(t, i) == Ok(Num([t[i]]), i + 1)
  {
    assert SkipDigits(t, i + 1) == i + 1 && SkipDigits(t, i) == i + 1;
    assert t[i..i + 1] == [t[i]];
  }

  /** Braces and colons: {} and {"a":1}. */
  lemma ObjectsRead()
    ensures Parse([123, 125]) == Ok(Obj(Properties(map[], Standard)), 2)
    ensures Parse([123, 34, 97, 34, 58, 49, 125]) == Ok(Obj(Properties(map[[97] := Num([49])], Standard)), 7)
  {
    assert Parse([123, 125]) == Ok(Obj(EMPTY), 2);
    var one: Text := [123, 34, 97, 34, 58, 49, 125];
    KeyIsRead(one, 1);
    DigitIsRead(one, 5);
  }

  /** A second member with another key, and with the same: {"a":1,"b":2} and {"a":1,"a":2}. */
  lemma MembersRead(k: Unit)
    requires k !in {34, 92}
    ensures Parse([123, 34, 97, 34, 58, 49, 44, 34, k, 34, 58, 50, 125])
         == if k == 97 then Err(DuplicateKey([97]), 12)
            else Ok(Obj(Properties(map[[97] := Num([49]), [k] := Num([50])], Standard)), 13)
  {
    var t: Text := [123, 34, 97, 34, 58, 49, 44, 34, k, 34, 58, 50, 125];
    KeyIsRead(t, 1);
    DigitIsRead(t, 5);
    KeyIsRead(t, 7);
    DigitIsRead(t, 11);
    hide ParseValue, ParseString;
    var p := SetOwn(EMPTY, [97], Num([49]));
    assert p == Properties(map[[97] := Num([49])], Standard) by { assert [97] != PROTO by { assert |PROTO| == 9; } }
    assert k != 97 ==> [k] !in p.members by { assert [k][0] == k && [97][0] == 97; }
    assert SetOwn(p, [k], Num([50])) == Properties(p.members[[k] := Num([50])], Standard) by { assert |PROTO| == 9; }
    assert ParseMembers(t, 1, EMPTY) == ParseMembers(t, 7, p);
    ObjectOfMembers(t);
  }

  lemma ObjectOfMembers(t: Text)
    requires |t| > 1 && t[0] == 123 && t[1] == 34
    ensures ParseValue(t, 0) == ParseMembers(t, 1, EMPTY)
  {
    hide ParseMembers;
    assert SkipWhite(t, 0) == 0 && SkipWhite(t, 1) == 1;
  }

  lemma KeyIsRead(t: Text, i: nat)
    requires i + 3 < |t| && t[i] == 34 && t[i + 1] !in {34, 92} && t[i + 2] == 34
    ensures ParseString(t, i) == Ok([t[i + 1]], i + 3)
  {
    OthersRead(t, i + 1, []);
    OthersRead(t, i + 2, [t[i + 1]]);
    assert [] + [t[i + 1]] == [t[i + 1]];
  }

  /** The name __proto__ in an object of its own: null and objects or arrays become the prototype, other values are lost. */
  lemma ProtoRead(t: Text, v: Json)
    requires |t| > 14 && t[..13] == [123, 34, 95, 95, 112, 114, 111, 116, 111, 95, 95, 34, 58] && t[|t| - 1] == 125
    requires ParseValue(t, 13) == Ok(v, |t| - 1)
    ensures Parse(t)
         == Ok(Obj(Properties(map[], if v.Null? then Absent else if v.Obj? || v.Arr? then Of(v) else Standard)), |t|)
  {
    var u := t[..13];
    assert forall i | 0 <= i < 13 :: t[i] == u[i];
    assert t[0] == 123 && t[1] == 34 && t[12] == 58;
    ProtoIsRead(t);
    hide ParseValue, ParseString;
    assert ParseMembers(t, 1, EMPTY) == Ok(Obj(SetOwn(EMPTY, PROTO, v)), |t|);
    ObjectOfMembers(t);
  }

  lemma ProtoIsRead(t: Text)
    requires |t| > 12 && t[1..12] == [34, 95, 95, 112, 114, 111, 116, 111, 95, 95, 34]
    ensures ParseString(t, 1) == Ok([95, 95, 112, 114, 111, 116, 111, 95, 95], 12)
  {
    var u := t[1..12];
    assert forall i | 0 <= i < 11 :: t[1 + i] == u[i];
    assert t[11] == u[10] && t[1] == u[0] && t[2] == u[1] && t[3] == u[2] && t[4] == u[3] && t[5] == u[4] && t[6] == u[5];
    assert t[7] == u[6] && t[8] == u[7] && t[9] == u[8] && t[10] == u[9];
    var name: Text := [95, 95, 112, 114, 111, 116, 111, 95, 95];
    assert t[2..11] == name;
    assert forall i | 0 <= i < 9 :: t[2 + i] == name[i];
    OthersReadOn(t, 2, 9, []);
    assert [] + t[2..11] == name;
    OthersRead(t, 11, name);
  }

  lemma {:induction false} OthersReadOn(t: Text, j: nat, n: nat, acc: Text)
    requires j + n <= |t| && forall i | j <= i < j + n :: t[i] != 34 && t[i] != 92
    ensures ParseChars(t, j, acc) == ParseChars(t, j + n, acc + t[j..j + n])
    decreases n
  {
    hide ParseChars;
    if n == 0 {
      assert acc + t[j..j] == acc;
    } else {
      OthersRead(t, j, acc);
      OthersReadOn(t, j + 1, n - 1, acc + [t[j]]);
      assert acc + [t[j]] + t[j + 1..j + n] == acc + t[j..j + n];
    }
  }
}