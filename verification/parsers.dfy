/** The `parse` methods the file writes out itself: Boolean, Character and the
    error wrapping around `UUID.fromString`. */
module Parsers {
  import opened JavaText
  import opened Types

  const TrueWord: JString := Ascii("true")
  const TWord: JString := Ascii("t")
  const FalseWord: JString := Ascii("false")
  const FWord: JString := Ascii("f")

  /** Boolean mapper: lower-case the input, then `true`/`t` give true,
      `false`/`f` give false, and anything else is `newException(Boolean.class, input)`. */
  function ParseBoolean(input: JString): (r: Result<bool>)
    ensures r.Err? ==> r.failure == CannotCast(Boolean, input)
  {
    var normalized := ToLowerCase(input);
    if normalized == TrueWord || normalized == TWord then Ok(true)
    else if normalized == FalseWord || normalized == FWord then Ok(false)
    else Err(CannotCast(Boolean, input))
  }

  /** `u` is the ASCII letter `lower` in either case. */
  predicate IsLetter(u: CodeUnit, lower: char)
    requires 'a' <= lower <= 'z'
  {
    u as int == lower as int || u as int == lower as int - 0x20
  }

  /** Reference spelling of the accepted true words, letter by letter:
      `t` or `true`, each letter in either case. */
  predicate SpellsTrue(s: JString) {
    || (|s| == 1 && IsLetter(s[0], 't'))
    || (|s| == 4 && IsLetter(s[0], 't') && IsLetter(s[1], 'r') && IsLetter(s[2], 'u')
                 && IsLetter(s[3], 'e'))
  }

  /** Reference spelling of the accepted false words: `f` or `false`, any case. */
  predicate SpellsFalse(s: JString) {
    || (|s| == 1 && IsLetter(s[0], 'f'))
    || (|s| == 5 && IsLetter(s[0], 'f') && IsLetter(s[1], 'a') && IsLetter(s[2], 'l')
                 && IsLetter(s[3], 's') && IsLetter(s[4], 'e'))
  }

  /** Folding a code unit yields a lower-case letter exactly when the unit is
      that letter in either case. */
  lemma LowerUnitIsLetter(u: CodeUnit, lower: char)
    requires 'a' <= lower <= 'z'
    ensures LowerUnit(u) as int == lower as int <==> IsLetter(u, lower)
  {
  }

  /** A string folds to an ASCII lower-case word exactly when it spells that
      word letter by letter in either case. */
  lemma {:induction false} FoldsToWord(s: JString, w: string)
    requires forall i :: 0 <= i < |w| ==> 'a' <= w[i] <= 'z'
    ensures ToLowerCase(s) == Ascii(w) <==>
              |s| == |w| && forall i :: 0 <= i < |s| ==> IsLetter(s[i], w[i])
  {
    if |s| == |w| {
      forall i | 0 <= i < |s|
        ensures ToLowerCase(s)[i] == Ascii(w)[i] <==> IsLetter(s[i], w[i])
      {
        LowerUnitIsLetter(s[i], w[i]);
      }
      if forall i :: 0 <= i < |s| ==> IsLetter(s[i], w[i]) {
        assert forall i :: 0 <= i < |s| ==> ToLowerCase(s)[i] == Ascii(w)[i];
      }
    }
  }

  /** The Boolean mapper returns true exactly for `t` and `true` in any mix of
      case, e.g. `TRUE`, `T`, `tRuE`. */
  lemma BooleanTrueIff(input: JString)
    ensures ParseBoolean(input) == Ok(true) <==> SpellsTrue(input)
  {
    FoldsToWord(input, "true");
    FoldsToWord(input, "t");
    FoldsToWord(input, "false");
    FoldsToWord(input, "f");
  }

  /** The Boolean mapper returns false exactly for `f` and `false` in any mix of case. */
  lemma BooleanFalseIff(input: JString)
    ensures ParseBoolean(input) == Ok(false) <==> SpellsFalse(input)
  {
    FoldsToWord(input, "true");
    FoldsToWord(input, "t");
    FoldsToWord(input, "false");
    FoldsToWord(input, "f");
  }

  /** Every other input is rejected with the Boolean `ParserException`; no
      value is ever returned for it. */
  lemma BooleanRejectsOthers(input: JString)
    ensures ParseBoolean(input).Err? <==> !SpellsTrue(input) && !SpellsFalse(input)
    ensures ParseBoolean(input).Err? ==> ParseBoolean(input).failure.IsParserException()
  {
    BooleanTrueIff(input);
    BooleanFalseIff(input);
  }

  /** Case does not matter: inputs that fold to the same string are accepted
      or rejected together, and accepted ones give the same value. */
  lemma BooleanCaseInsensitive(a: JString, b: JString)
    requires ToLowerCase(a) == ToLowerCase(b)
    ensures ParseBoolean(a).Ok? <==> ParseBoolean(b).Ok?
    ensures ParseBoolean(a).Ok? ==> ParseBoolean(a) == ParseBoolean(b)
  {
  }

  /** Sample inputs. */
  lemma BooleanExamples()
    ensures ParseBoolean(Ascii("TRUE")) == Ok(true)
    ensures ParseBoolean(Ascii("T")) == Ok(true)
    ensures ParseBoolean(Ascii("tRuE")) == Ok(true)
    ensures ParseBoolean(Ascii("False")) == Ok(false)
    ensures ParseBoolean(Ascii("f")) == Ok(false)
    ensures ParseBoolean(Ascii("yes")).Err?
    ensures ParseBoolean(Ascii("")).Err?
    ensures ParseBoolean(Ascii("tr")).Err?
  {
    BooleanTrueIff(Ascii("TRUE"));
    BooleanTrueIff(Ascii("T"));
    BooleanTrueIff(Ascii("tRuE"));
    BooleanFalseIff(Ascii("False"));
    BooleanFalseIff(Ascii("f"));
    BooleanRejectsOthers(Ascii("yes"));
    BooleanRejectsOthers(Ascii(""));
    BooleanRejectsOthers(Ascii("tr"));
  }

  /** Character mapper: exactly one UTF-16 code unit is accepted and returned;
      any other length is `newException(Character.class, input)`. */
  function ParseCharacter(input: JString): (r: Result<CodeUnit>)
    ensures r.Ok? <==> |input| == 1
    ensures r.Ok? ==> r.value == input[0]
    ensures r.Err? ==> r.failure == CannotCast(Character, input)
  {
    if |input| != 1 then Err(CannotCast(Character, input))
    else Ok(input[0])
  }

  /** The Character mapper returns `c` exactly for the one-unit string `[c]`,
      so distinct accepted inputs give distinct characters. */
  lemma CharacterIff(input: JString, c: CodeUnit)
    ensures ParseCharacter(input) == Ok(c) <==> input == [c]
  {
  }

  /** What `UUID.fromString` does with a string: return a UUID or throw
      `IllegalArgumentException`. */
  datatype UuidOutcome = Returns(uuid: UuidValue) | Throws(cause: IllegalArgument)

  /** A `java.util.UUID`: two 64-bit halves. */
  datatype UuidValue = UuidValue(mostSigBits: bv64, leastSigBits: bv64)

  /** UUID mapper: delegate to `UUID.fromString` (passed in, since its grammar is
      the JDK's) and turn the `IllegalArgumentException` it throws into a
      `ParserException` that keeps it as cause. */
  function ParseUuid(fromString: JString -> UuidOutcome, input: JString): (r: Result<UuidValue>)
    ensures r.Ok? <==> fromString(input).Returns?
    ensures r.Ok? ==> r.value == fromString(input).uuid
    ensures r.Err? ==> r.failure.IsParserException()
    ensures r.Err? ==> r.failure == InvalidUuid(fromString(input).cause)
  {
    match fromString(input)
    case Returns(u) => Ok(u)
    case Throws(e) => Err(InvalidUuid(e))
  }
}
