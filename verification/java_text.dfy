/** Java strings as sequences of UTF-16 code units, and the case fold that the
    Boolean parser applies before matching. */
module JavaText {

  /** One UTF-16 code unit, the element type of a Java `String`; `String.length()`
      counts these, so a supplementary character occupies two of them. */
  newtype CodeUnit = x: int | 0 <= x < 0x1_0000

  type JString = seq<CodeUnit>

  /** The code units of an ASCII literal; used to write the parser's keywords. */
  function Ascii(s: string): (r: JString)
    requires forall i :: 0 <= i < |s| ==> s[i] as int < 0x80
    ensures |r| == |s|
    ensures forall i :: 0 <= i < |s| ==> r[i] as int == s[i] as int
  {
    if s == [] then [] else [s[0] as int as CodeUnit] + Ascii(s[1..])
  }

  predicate IsAsciiUpper(u: CodeUnit) {
    'A' as int as CodeUnit <= u <= 'Z' as int as CodeUnit
  }

  predicate IsAsciiLower(u: CodeUnit) {
    'a' as int as CodeUnit <= u <= 'z' as int as CodeUnit
  }

  /** Lower-case one code unit: `A`..`Z` become `a`..`z`, everything else is kept. */
  function LowerUnit(u: CodeUnit): (r: CodeUnit)
    ensures !IsAsciiUpper(r)
    ensures r != u ==> IsAsciiUpper(u) && IsAsciiLower(r)
    ensures IsAsciiUpper(u) ==> r as int - u as int == 'a' as int - 'A' as int
  {
    if IsAsciiUpper(u) then u + 0x20 else u
  }

  /** `String.toLowerCase()` restricted to the ASCII fold. */
  function ToLowerCase(s: JString): (r: JString)
    ensures |r| == |s|
    ensures forall i :: 0 <= i < |r| ==> !IsAsciiUpper(r[i])
    ensures forall i :: 0 <= i < |s| && !IsAsciiUpper(s[i]) ==> r[i] == s[i]
    ensures forall i :: 0 <= i < |s| && IsAsciiUpper(s[i]) ==>
              r[i] as int - s[i] as int == 'a' as int - 'A' as int
  {
    seq(|s|, i requires 0 <= i < |s| => LowerUnit(s[i]))
  }
}
