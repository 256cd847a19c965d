/**
 * Alpha-5 catalog numbers: a five-character field that is either five digits
 * or one symbol of a 34-letter alphabet (digits, then the capitals without I
 * and O) followed by four digits, read as symbol index * 10000 + digits.
 */
module Alpha5 {
  import opened Wrappers
  import opened Decimal
  import opened PyText
  import opened PyTextFacts

  /** The symbols in index order; ALPHA5_MAP maps each to its position. */
  const Alphabet: string := "0123456789ABCDEFGHJKLMNPQRSTUVWXYZ"

  /** What Python raises when a field or a number has no Alpha-5 form. */
  datatype Alpha5Error =
    | EmptyField              // IndexError: value[0] of ""
    | UnknownSymbol(c: char)  // KeyError: first character not in ALPHA5_MAP
    | BadDigits               // ValueError: int() of the rest fails
    | NoSymbol(q: int)        // KeyError: quotient not in ALPHA5_MAP_REV

  /**
   * ALPHA5_MAP[c]: the position of c in the alphabet, None where Python raises
   * KeyError. The alphabet is four runs of consecutive characters, 0-9, A-H,
   * J-N and P-Z, so the position is an offset into the run holding c.
   */
  function SymbolIndex(c: char): Option<nat>
  {
    if '0' <= c <= '9' then Some(c as int - '0' as int)
    else if 'A' <= c <= 'H' then Some(c as int - 'A' as int + 10)
    else if 'J' <= c <= 'N' then Some(c as int - 'J' as int + 18)
    else if 'P' <= c <= 'Z' then Some(c as int - 'P' as int + 23)
    else None
  }

  /** Python's str.isnumeric() on ASCII text: non-empty, every character a digit. */
  predicate IsNumeric(s: string) {
    |s| > 0 && AllDigits(s)
  }

  /** alpha5_to_number: the numeric branch first, then symbol lookup, then int() of the rest. */
  function Alpha5ToNumber(s: string): (r: Result<int, Alpha5Error>)
    ensures IsNumeric(s) ==> r == Ok(ParseNat(s) as int)
    ensures s == [] ==> r == Err(EmptyField)
  {
    if IsNumeric(s) then NumericField(s)
    else if s == [] then Err(EmptyField)
    else SymbolField(s)
  }

  /** int(value) of a field that is all digits. */
  function NumericField(s: string): (r: Result<int, Alpha5Error>)
    requires IsNumeric(s)
    ensures r == Ok(ParseNat(s) as int)
  {
    ParseIntDigits(s);
    match ParseInt(s)
    case Some(n) => Ok(n)
    case None => Err(BadDigits)
  }

  /** ALPHA5_MAP[value[0]] * 10000 + int(value[1:]), the lookup failing before int() is tried. */
  function SymbolField(s: string): Result<int, Alpha5Error>
    requires s != []
  {
    match SymbolIndex(s[0])
    case None => Err(UnknownSymbol(s[0]))
    case Some(k) =>
      match ParseInt(s[1..])
      case None => Err(BadDigits)
      case Some(d) => Ok(k * 10000 + d)
  }

  /** number_to_alpha5: right-justified decimal below 10000, symbol and four zero-padded digits above. */
  function NumberToAlpha5(n: int): (r: Result<string, Alpha5Error>)
    ensures r.Ok? <==> n < 340000
    ensures r.Err? ==> r.error == NoSymbol(n / 10000)
  {
    if n < 10000 then
      Ok(FormatInt(n, 5))
    else
      var q, rem := n / 10000, n % 10000;
      if q < |Alphabet| then Ok([Alphabet[q]] + Digits(rem, 4)) else Err(NoSymbol(q))
  }

  // ---------------------------------------------------------------------------
  // The alphabet

  lemma AlphabetShape()
    ensures |Alphabet| == 34 && Alphabet[10] == 'A'
  {
  }

  /** The symbol at position q, counted along the run it falls in. */
  function RunChar(q: nat): char
    requires q < 34
  {
    if q < 10 then ('0' as int + q) as char
    else if q < 18 then ('A' as int + q - 10) as char
    else if q < 23 then ('J' as int + q - 18) as char
    else ('P' as int + q - 23) as char
  }

  lemma {:induction false} DigitRun(q: nat)
    requires q < 10
    ensures Alphabet[q] == RunChar(q)
  {
    assert q == 0 || q == 1 || q == 2 || q == 3 || q == 4 || q == 5 || q == 6 || q == 7
      || q == 8 || q == 9;
  }

  lemma {:induction false} FirstLetterRun(q: nat)
    requires 10 <= q < 18
    ensures Alphabet[q] == RunChar(q)
  {
    assert q == 10 || q == 11 || q == 12 || q == 13 || q == 14 || q == 15 || q == 16 || q == 17;
  }

  lemma {:induction false} SecondLetterRun(q: nat)
    requires 18 <= q < 23
    ensures Alphabet[q] == RunChar(q)
  {
    assert q == 18 || q == 19 || q == 20 || q == 21 || q == 22;
  }

  lemma {:induction false} ThirdLetterRun(q: nat)
    requires 23 <= q < 34
    ensures Alphabet[q] == RunChar(q)
  {
    assert q == 23 || q == 24 || q == 25 || q == 26 || q == 27 || q == 28 || q == 29 || q == 30
      || q == 31 || q == 32 || q == 33;
  }

  /** The alphabet is its four runs. */
  lemma {:induction false} AlphabetRuns(q: nat)
    requires q < |Alphabet|
    ensures Alphabet[q] == RunChar(q)
  {
    if q < 10 {
      DigitRun(q);
    } else if q < 18 {
      FirstLetterRun(q);
    } else if q < 23 {
      SecondLetterRun(q);
    } else {
      ThirdLetterRun(q);
    }
  }

  /** ALPHA5_MAP and ALPHA5_MAP_REV are inverse: each index maps to a symbol that maps back to it. */
  lemma {:induction false} SymbolIndexInverse(q: nat)
    requires q < |Alphabet|
    ensures SymbolIndex(Alphabet[q]) == Some(q)
  {
    AlphabetRuns(q);
  }

  /** A character the lookup finds sits at the index it is given. */
  lemma {:induction false} SymbolIndexSound(c: char)
    requires SymbolIndex(c).Some?
    ensures SymbolIndex(c).value < |Alphabet| && Alphabet[SymbolIndex(c).value] == c
  {
    AlphabetRuns(SymbolIndex(c).value);
  }

  /** A character has an index exactly when it is in the alphabet, and the index is its position. */
  lemma {:induction false} SymbolIndexFound(c: char)
    ensures SymbolIndex(c).Some? <==> c in Alphabet
    ensures SymbolIndex(c).Some? ==> SymbolIndex(c).value < |Alphabet| && Alphabet[SymbolIndex(c).value] == c
  {
    if SymbolIndex(c).Some? {
      SymbolIndexSound(c);
    } else if c in Alphabet {
      var q :| 0 <= q < |Alphabet| && Alphabet[q] == c;
      SymbolIndexInverse(q);
    }
  }

  /** The first ten symbols are the decimal digits, in order. */
  lemma {:induction false} AlphabetDigit(q: nat)
    requires q < 10
    ensures Alphabet[q] == DigitChar(q)
  {
    DigitRun(q);
  }

  /** The other 24 symbols are letters. */
  lemma {:induction false} AlphabetLetter(q: nat)
    requires 10 <= q < |Alphabet|
    ensures !IsDigit(Alphabet[q])
  {
    AlphabetRuns(q);
  }

  /** I and O are left out, and so is the space that pads short numbers. */
  lemma AlphabetOmits()
    ensures 'I' !in Alphabet && 'O' !in Alphabet && ' ' !in Alphabet
  {
    SymbolIndexFound('I');
    SymbolIndexFound('O');
    SymbolIndexFound(' ');
  }

  // ---------------------------------------------------------------------------
  // Decoding

  /** A field made of a non-digit symbol and four digits reads as the symbol's index * 10000 + the digits. */
  lemma {:induction false} Alpha5ToNumberSymbol(c: char, q: nat, digits: string)
    requires !IsDigit(c) && SymbolIndex(c) == Some(q) && |digits| == 4 && AllDigits(digits)
    ensures Alpha5ToNumber([c] + digits) == Ok(q * 10000 + ParseNat(digits))
  {
    var s := [c] + digits;
    assert !IsNumeric(s) by {
      assert !IsDigit(s[0]);
    }
    assert s[0] == c && s[1..] == digits;
    ParseIntDigits(digits);
    assert SymbolField(s) == Ok(q * 10000 + ParseNat(digits));
  }

  /** A field starting with the letter of index q reads as q * 10000 + the four digits after it. */
  lemma {:induction false} Alpha5ToNumberLetter(q: nat, digits: string)
    requires 10 <= q < |Alphabet| && |digits| == 4 && AllDigits(digits)
    ensures Alpha5ToNumber([Alphabet[q]] + digits) == Ok(q * 10000 + ParseNat(digits))
  {
    AlphabetLetter(q);
    SymbolIndexInverse(q);
    Alpha5ToNumberSymbol(Alphabet[q], q, digits);
  }

  /** A field that is not all digits and starts with a character outside the alphabet is a KeyError. */
  lemma {:induction false} Alpha5ToNumberUnknown(s: string)
    requires !IsNumeric(s) && s != [] && s[0] !in Alphabet
    ensures Alpha5ToNumber(s) == Err(UnknownSymbol(s[0]))
  {
  }

  // ---------------------------------------------------------------------------
  // Encoding, and the round trip

  /** A field of five digits reads as its decimal value, here split as leading digit and four more. */
  lemma {:induction false} Alpha5ToNumberDigits(q: nat, digits: string)
    requires q < 10 && |digits| == 4 && AllDigits(digits)
    ensures Alpha5ToNumber([DigitChar(q)] + digits) == Ok(q * 10000 + ParseNat(digits) as int)
  {
    var lead := [DigitChar(q)];
    assert AllDigits(lead);
    ParseNatAppend(lead, digits);
    assert ParseNat(lead) == q by {
      assert lead[..0] == [];
    }
    assert Pow10(|digits|) == 10000;
    assert ParseNat(lead + digits) == q * 10000 + ParseNat(digits);
    assert IsNumeric(lead + digits);
    assert Alpha5ToNumber(lead + digits) == Ok(ParseNat(lead + digits) as int);
  }

  /** Every catalog number from 10000 to 339999 has a five-character Alpha-5 form that decodes back to it. */
  lemma {:induction false} Alpha5RoundTrip(n: int)
    requires 10000 <= n < 340000
    ensures NumberToAlpha5(n).Ok?
    ensures |NumberToAlpha5(n).value| == 5
    ensures Alpha5ToNumber(NumberToAlpha5(n).value) == Ok(n)
  {
    SymbolRoundTrip(n, n / 10000, n % 10000);
  }

  /** Alpha5RoundTrip, with the symbol's position q and the four trailing digits' value rem. */
  lemma {:induction false} SymbolRoundTrip(n: int, q: int, rem: int)
    requires 10000 <= n < 340000 && q == n / 10000 && rem == n % 10000
    ensures NumberToAlpha5(n) == Ok([Alphabet[q]] + Digits(rem, 4))
    ensures Alpha5ToNumber([Alphabet[q]] + Digits(rem, 4)) == Ok(n)
  {
    AlphabetShape();
    assert Pow10(4) == 10000;
    DigitsRoundTrip(rem, 4);
    SymbolFieldValue(q, Digits(rem, 4), rem, n);
  }

  /** The symbol at position q before four digits worth rem reads as q * 10000 + rem. */
  lemma {:induction false} SymbolFieldValue(q: int, digits: string, rem: int, n: int)
    requires 1 <= q < |Alphabet| && |digits| == 4 && AllDigits(digits) && ParseNat(digits) == rem
    requires n == q * 10000 + rem
    ensures Alpha5ToNumber([Alphabet[q]] + digits) == Ok(n)
  {
    if q < 10 {
      AlphabetDigit(q);
      Alpha5ToNumberDigits(q, digits);
    } else {
      Alpha5ToNumberLetter(q, digits);
    }
  }

  lemma {:induction false} NumDigitsBelow(n: nat, k: nat)
    requires n < Pow10(k) && k >= 1
    ensures NumDigits(n) <= k
  {
    var m := NumDigits(n);
    if m > k {
      Pow10Monotone(k, m - 1);
    }
  }

  /**
   * Numbers below 10000 come out right-justified in five characters with
   * leading spaces, and that field is rejected when read back: a space is
   * neither a digit nor an Alpha-5 symbol.
   */
  lemma {:induction false} SmallNumberNotReadable(n: nat)
    requires n < 10000
    ensures NumberToAlpha5(n).Ok?
    ensures |NumberToAlpha5(n).value| == 5 && NumberToAlpha5(n).value[0] == ' '
    ensures Alpha5ToNumber(NumberToAlpha5(n).value) == Err(UnknownSymbol(' '))
  {
    var s := NatToString(n);
    NumDigitsBelow(n, 4);
    assert |s| <= 4;
    PadLeftShape(s, 5);
    var field := NumberToAlpha5(n).value;
    assert field == Spaces(5 - |s|) + s;
    assert field[0] == ' ';
    assert !IsNumeric(field) by {
      assert !IsDigit(field[0]);
    }
    AlphabetOmits();
    Alpha5ToNumberUnknown(field);
  }

  /** One catalog number and the field the repository's tests pair it with. */
  lemma {:induction false} Alpha5Example(n: int, field: string)
    requires 10000 <= n < 340000 && |field| == 5
    requires field[0] == Alphabet[n / 10000] && field[1..] == Digits(n % 10000, 4)
    ensures NumberToAlpha5(n) == Ok(field) && Alpha5ToNumber(field) == Ok(n)
  {
    assert [field[0]] + field[1..] == field;
    Alpha5RoundTrip(n);
  }

  /** The test pair 100000 and "A0000". */
  lemma Alpha5ExampleA()
    ensures NumberToAlpha5(100000) == Ok("A0000") && Alpha5ToNumber("A0000") == Ok(100000)
  {
    assert Digits(0, 4) == "0000";
    Alpha5Example(100000, "A0000");
  }

  /** The test pair 148493 and "E8493". */
  lemma Alpha5ExampleE()
    ensures NumberToAlpha5(148493) == Ok("E8493") && Alpha5ToNumber("E8493") == Ok(148493)
  {
    assert Digits(8493, 4) == "8493";
    Alpha5Example(148493, "E8493");
  }

  /** The test pair 182931 and "J2931". */
  lemma Alpha5ExampleJ()
    ensures NumberToAlpha5(182931) == Ok("J2931") && Alpha5ToNumber("J2931") == Ok(182931)
  {
    assert Digits(2931, 4) == "2931";
    Alpha5Example(182931, "J2931");
  }

  /** The test pair 234018 and "P4018". */
  lemma Alpha5ExampleP()
    ensures NumberToAlpha5(234018) == Ok("P4018") && Alpha5ToNumber("P4018") == Ok(234018)
  {
    assert Digits(4018, 4) == "4018";
    Alpha5Example(234018, "P4018");
  }

  /** The test pair 301928 and "W1928". */
  lemma Alpha5ExampleW()
    ensures NumberToAlpha5(301928) == Ok("W1928") && Alpha5ToNumber("W1928") == Ok(301928)
  {
    assert Digits(1928, 4) == "1928";
    Alpha5Example(301928, "W1928");
  }

  /** The test pair 339999 and "Z9999". */
  lemma Alpha5ExampleZ()
    ensures NumberToAlpha5(339999) == Ok("Z9999") && Alpha5ToNumber("Z9999") == Ok(339999)
  {
    assert Digits(9999, 4) == "9999";
    Alpha5Example(339999, "Z9999");
  }
}
