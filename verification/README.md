# DefaultStringParsers, modelled in Dafny

crnk's `DefaultStringParsers.get()` builds the registry of built-in
`StringMapper`s. The registry maps a Java `Class` to the mapper that turns
query-parameter text into a value of that class. This project models:

- the registry construction (`get` and `addType`);
- the `parse` methods the class writes out itself (Boolean, Character, and
  the exception wrapping around `UUID.fromString`);
- the integer mappers that delegate to the JDK (`Byte.valueOf` ...
  `Long.valueOf`, `new BigInteger`), kept small.

Modules:

- `JavaText` (`java_text.dfy`): a Java `String` as a sequence of UTF-16 code
  units (`CodeUnit`, 0..0xFFFF), so that `length()` counts what Java counts. Also
  the ASCII case fold used for `toLowerCase()`.
- `Types` (`types.dfy`): `TypeKey` is a registry key. It has the nineteen classes
  `get()` registers, plus `Other(name)` for every other class. `MapperKind` names
  the eleven mapper instances. Each `addType` call creates one instance.
  `Failure` and `Result` say how a `parse` call ends. `CannotCast(target, input)`
  is the `ParserException` that `newException` builds (lines 117-119).
  `InvalidUuid(cause)` is the wrapped UUID error. `NumberFormat(input)` is the
  JDK's `NumberFormatException`, which the integer mappers let through.
- `Registry` (`registry.dfy`): `AddType`, `Get`, the map lookup, and a
  reference table of which class should find which mapper.
- `Parsers` (`parsers.dfy`): `ParseBoolean`, `ParseCharacter`, `ParseUuid`.
- `NumberParsers` (`number_parsers.dfy`): `ParseFixed` for the four fixed-width
  types and `ParseBigInteger`, over one decimal grammar.

What the code does, and so what the model does:

- Boxed and primitive classes are two keys that share one mapper (for example
  `Byte.class` and `byte.class`).
- The Character mapper tests `input.length() != 1`. That counts UTF-16 code
  units, not code points, so a supplementary character (two units) is rejected.
- Only the UUID mapper turns the JDK's exception into a `ParserException`. The
  integer and `BigInteger` mappers do not catch the `NumberFormatException` from
  `valueOf` or the `BigInteger` constructor, so it reaches the caller unwrapped.
- The UUID mapper accepts whatever `UUID.fromString` accepts. The code does not
  check the canonical 8-4-4-4-12 form itself.

The case fold covers ASCII only. For the Boolean mapper this fold gives the
same answer as Java's full, locale-sensitive `toLowerCase()`. Where Java's
result differs from the ASCII fold, and that result contains an ASCII letter,
the letter is always `i`, `j` or `k`:

- U+0130 becomes `i` followed by U+0307 (just `i` in the Turkish and Azeri locales);
- U+212A (Kelvin sign) becomes `k`;
- in the Turkish and Azeri locales, ASCII `I` becomes U+0131 (dotless i);
- in the Lithuanian locale, U+00CC, U+00CD and U+0128 become `i`, U+0307 and an
  accent, and `I`, `J` and U+012E gain U+0307 before a following accent.

None of `i`, `j` and `k` occurs in `true`, `t`, `false` or `f`, so no input
is accepted or rejected differently. This is an argument about Unicode's
case tables; the model does not prove it.

## Model

| member | source | states |
|---|---|---|
| `Registry.AddTypeSpec` | crnk-core/src/main/java/io/crnk/core/engine/parser/DefaultStringParsers.java:111-115 | about `AddType` (the `put` loop of `addType`): the keys afterwards are the old keys plus exactly the listed classes; every listed class maps to the given mapper; every other key keeps its old mapper |
| `Registry.GetIsTable` | crnk-core/src/main/java/io/crnk/core/engine/parser/DefaultStringParsers.java:22-106 | `Get`, the eleven `addType` calls, run in order from an empty map, produce exactly the 19-entry table: each boxed/primitive pair is bound to its one mapper |
| `Registry.GetAgreesWithTable` | crnk-core/src/main/java/io/crnk/core/engine/parser/DefaultStringParsers.java:22-106 | for every class, `Lookup` (the model of `Map.get`) in the registry `Get` builds gives the mapper the reference table assigns it, and gives nothing for a class the table does not list |
| `Registry.GetKeys` | crnk-core/src/main/java/io/crnk/core/engine/parser/DefaultStringParsers.java:22-106 | the registry's key set is exactly the nineteen listed classes, and it has 19 entries |
| `Registry.OtherTypesAbsent` | crnk-core/src/main/java/io/crnk/core/engine/parser/DefaultStringParsers.java:22-106 | a class outside the nineteen is absent: the lookup gives `None`, as `Map.get` gives `null`, and no error occurs |
| `Registry.PairsShareMapper` | crnk-core/src/main/java/io/crnk/core/engine/parser/DefaultStringParsers.java:25-95 | a class and its boxed/primitive companion give the same lookup result: both are present with the same mapper instance, or both are absent |
| `Registry.SharedMapperIffPair` | crnk-core/src/main/java/io/crnk/core/engine/parser/DefaultStringParsers.java:25-104 | two registered classes share a mapper if and only if they are the same class or the two halves of one pair, so the instances are not shared across types |
| `JavaText.ToLowerCase` | crnk-core/src/main/java/io/crnk/core/engine/parser/DefaultStringParsers.java:86 | the folded string has the input's length and no upper-case ASCII letter; only `A`-`Z` change, each to its lower-case partner |
| `Parsers.ParseBoolean` | crnk-core/src/main/java/io/crnk/core/engine/parser/DefaultStringParsers.java:83-94 | every rejection is the `ParserException` built by `newException` for `Boolean.class` with the original, unfolded input |
| `Parsers.FoldsToWord` | crnk-core/src/main/java/io/crnk/core/engine/parser/DefaultStringParsers.java:86-87 | a string folds to a lower-case ASCII word if and only if it has the word's length and each unit is the word's letter in either case |
| `Parsers.BooleanTrueIff` | crnk-core/src/main/java/io/crnk/core/engine/parser/DefaultStringParsers.java:86-88 | the result is `true` if and only if the input spells `t` or `true`, each letter in either case (e.g. `TRUE`, `T`, `tRuE`) |
| `Parsers.BooleanFalseIff` | crnk-core/src/main/java/io/crnk/core/engine/parser/DefaultStringParsers.java:89-90 | the result is `false` if and only if the input spells `f` or `false`, each letter in either case |
| `Parsers.BooleanRejectsOthers` | crnk-core/src/main/java/io/crnk/core/engine/parser/DefaultStringParsers.java:92 | the parser fails if and only if the input spells none of the four words, and every such failure is a `ParserException` |
| `Parsers.BooleanCaseInsensitive` | crnk-core/src/main/java/io/crnk/core/engine/parser/DefaultStringParsers.java:86 | inputs that fold to the same string are accepted or rejected together, and accepted ones give the same value |
| `Parsers.BooleanExamples` | crnk-core/src/main/java/io/crnk/core/engine/parser/DefaultStringParsers.java:85-93 | `TRUE`, `T` and `tRuE` give true; `False` and `f` give false; `yes`, the empty string and `tr` are rejected |
| `Parsers.ParseCharacter` | crnk-core/src/main/java/io/crnk/core/engine/parser/DefaultStringParsers.java:76-81 | succeeds if and only if the input is one UTF-16 unit long, and then returns that unit; any other length, the empty input included, is the `Character.class` `ParserException` |
| `Parsers.CharacterIff` | crnk-core/src/main/java/io/crnk/core/engine/parser/DefaultStringParsers.java:77-80 | the parser returns `c` if and only if the input is exactly the one-unit string `[c]` |
| `Parsers.ParseUuid` | crnk-core/src/main/java/io/crnk/core/engine/parser/DefaultStringParsers.java:96-103 | succeeds exactly when `UUID.fromString` returns, with its UUID; every failure is a `ParserException` that carries the `IllegalArgumentException` as cause, so that exception never escapes |
| `NumberParsers.ParseDecimal` | crnk-core/src/main/java/io/crnk/core/engine/parser/DefaultStringParsers.java:25-67 | the shared grammar of `valueOf` and `BigInteger`: an accepted text is non-empty, and its value is at most zero after a `-` and at least zero otherwise (which texts are accepted is pinned by `DecimalAcceptsExactly`; the value by `DecimalSigns`, `DecimalLeadingZero` and `BigIntegerReachesAll`) |
| `NumberParsers.DecimalAcceptsExactly` | crnk-core/src/main/java/io/crnk/core/engine/parser/DefaultStringParsers.java:25-67 | the parser accepts a text if and only if it is an optional `+` or `-` followed by one or more decimal digits and nothing else, so a stray suffix such as `7L` is rejected |
| `NumberParsers.ParseFixed` | crnk-core/src/main/java/io/crnk/core/engine/parser/DefaultStringParsers.java:25-49 | a successful result lies in the width's `MIN_VALUE..MAX_VALUE`; the parse succeeds exactly when `ParseDecimal` accepts the text (the grammar of `DecimalAcceptsExactly`) and its value fits; a failure is a `NumberFormatException` and not a `ParserException` |
| `NumberParsers.ParseBigInteger` | crnk-core/src/main/java/io/crnk/core/engine/parser/DefaultStringParsers.java:62-67 | succeeds exactly on the texts `ParseDecimal` accepts (the grammar of `DecimalAcceptsExactly`) and then returns the text's decimal value, with no range limit in the model; a failure is an unwrapped `NumberFormatException` |
| `NumberParsers.FixedIsBigIntegerInRange` | crnk-core/src/main/java/io/crnk/core/engine/parser/DefaultStringParsers.java:25-67 | a fixed-width mapper returns `v` if and only if the `BigInteger` mapper returns `v` and `v` fits the width |
| `NumberParsers.BigIntegerReachesAll` | crnk-core/src/main/java/io/crnk/core/engine/parser/DefaultStringParsers.java:62-67 | every integer, of any size, is the value the `BigInteger` mapper reads from its decimal text |
| `NumberParsers.FixedWidens` | crnk-core/src/main/java/io/crnk/core/engine/parser/DefaultStringParsers.java:25-49 | text a narrower mapper accepts is accepted, with the same value, by every wider one (byte, then short, int, long) |
| `NumberParsers.FixedReachesRange` | crnk-core/src/main/java/io/crnk/core/engine/parser/DefaultStringParsers.java:25-49 | every value in a width's range is the result of parsing its decimal text, so no in-range value is unreachable |
| `NumberParsers.DecimalSigns` | crnk-core/src/main/java/io/crnk/core/engine/parser/DefaultStringParsers.java:25-67 | unsigned digits are read as their decimal value; a `+` before them keeps that value and a `-` negates it, at any size |
| `NumberParsers.DecimalLeadingZero` | crnk-core/src/main/java/io/crnk/core/engine/parser/DefaultStringParsers.java:25-67 | an extra `0` before the digits (after any sign) of any accepted text, of any size, gives the same value |
| `NumberParsers.FixedLeadingZero` | crnk-core/src/main/java/io/crnk/core/engine/parser/DefaultStringParsers.java:25-49 | an extra `0` before the digits (after any sign) of an accepted text gives the same result |
| `NumberParsers.FixedExamplesInRange` | crnk-core/src/main/java/io/crnk/core/engine/parser/DefaultStringParsers.java:25-36 | `5` is a byte; `300` is rejected as a byte but is the short 300 |
| `NumberParsers.FixedExamplesSigns` | crnk-core/src/main/java/io/crnk/core/engine/parser/DefaultStringParsers.java:25-49 | `-128` and `+7` are bytes; a lone sign, the empty text and `1x` are rejected |

## Left out

- Float and Double mappers (lines 50-61): they delegate to `Float.valueOf` and `Double.valueOf`, which are floating point. Their registry entries are modelled; their parsing is not.
- BigDecimal mapper (lines 68-73): the `BigDecimal(String)` grammar, with exponent and scale, is JDK behaviour that this file does not show. Only its registry entry is modelled.
- `UUID.fromString` (line 99): its grammar is the JDK's, and it is more lenient than the canonical form. `ParseUuid` takes it as a function parameter.
- `format`: it comes from `ToStringStringMapper`, which is not part of this model, so no parse/format round trip is stated.
- The message text that `newException` builds with `String.format` (line 118): `CannotCast` keeps only the class and the input the message is made from.
- `String.toLowerCase()` is locale-sensitive and covers all of Unicode; only the ASCII fold is modelled (see above for why it decides the same Boolean results).
- ParseDecimal: its own `ensures` states only that an accepted text is non-empty and the sign of its value; which texts it accepts is stated by the lemma `DecimalAcceptsExactly`, and the value by `DecimalSigns`, `DecimalLeadingZero` and `BigIntegerReachesAll`, because written on the function they would only repeat the body.
- `Character.digit` also accepts non-ASCII Unicode decimal digits (for example Arabic-Indic digits) in the JDK integer parsers; `ParseDecimal` accepts ASCII `0`-`9` only.
- ParseBigInteger: the JDK's `BigInteger(String)` throws `ArithmeticException` when the magnitude needs 2^31 bits or more (about 646 million digits); the model has no such limit, because Dafny's integers are unbounded.
- `null` input, for which the JDK parsers throw `NullPointerException` or `NumberFormatException`: a `JString` is never null.
- `HashMap` internals, `Class` identity, generics and reflection: the registry is a Dafny `map` over an enumeration of keys. `Other(name)` does not tie names to the nineteen listed classes.
- The boxed-value caches behind `Byte.valueOf` and the others: they affect object identity only, not the value.
