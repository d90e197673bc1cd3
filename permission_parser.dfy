/** `UnixFilePermissionParser` of the current library: value-wise parsing of
    numeric and symbolic notation into a `UnixFileMode`, and the `Try…`
    wrappers around it. */
module PermissionParser {
  import opened DotNet
  import opened UnixFileModes
  import opened NotationDetection

  /** `ParseNumericValue`: detection first, then the value table. A string
      that fails detection throws with the symbolic-notation message. */
  function ParseNumericValue(s: string): (r: Result<UnixFileMode>)
    ensures r.Ok? <==> IsNumericNotation(s)
    ensures r.Ok? ==> IsUserSingleton(r.value) && AtMostOneBit(r.value)
    ensures r.Ok? ==> r.value == NumericCollapse(TryParseInt(s).value)
    // The table's default arm, the only source of this message, is unreachable.
    ensures r.Throws? ==> r.exception == ArgumentException(InvalidSymbolicNotation)
  {
    if IsNumericNotation(s) && TryParseInt(s).NonNull? then
      match NumericValueMode(TryParseInt(s).value)
      case NonNull(m) => Ok(m)
      case Null => Throws(ArgumentException(InvalidNumericNotation))
    else
      Throws(ArgumentException(InvalidSymbolicNotation))
  }

  function TryParseNumericValue(s: string): (r: (bool, Nullable<UnixFileMode>))
    ensures r.0 <==> IsNumericNotation(s)
    ensures r.0 ==> r.1 == NonNull(ParseNumericValue(s).value)
    ensures !r.0 ==> r.1 == Null
  {
    Catch(ParseNumericValue(s))
  }

  /** `ParseSymbolicValue`: detection first, then the pattern table on the
      lower-cased string. */
  function ParseSymbolicValue(s: string): (r: Result<UnixFileMode>)
    ensures r.Ok? <==> IsSymbolicNotation(s)
    ensures r.Ok? ==> r.value == SymbolicCollapse(s)
    ensures r.Throws? ==> r.exception == ArgumentException(InvalidSymbolicNotation)
  {
    if IsSymbolicNotation(s) then
      SymbolicIsLowerCase(s);
      match SymbolicPatternMode(ToLower(s))
      case NonNull(m) => Ok(m)
      case Null => Throws(ArgumentException(InvalidSymbolicNotation))
    else
      Throws(ArgumentException(InvalidSymbolicNotation))
  }

  function TryParseSymbolicValue(s: string): (r: (bool, Nullable<UnixFileMode>))
    ensures r.0 <==> IsSymbolicNotation(s)
    ensures r.0 ==> r.1 == NonNull(SymbolicCollapse(s))
    ensures !r.0 ==> r.1 == Null
  {
    Catch(ParseSymbolicValue(s))
  }

  /** `TryParse`: numeric when only numeric detection holds, symbolic when
      only symbolic detection holds, and `UserRead & UserWrite` otherwise. */
  function TryParse(s: string): (r: (bool, Nullable<UnixFileMode>))
    ensures r.0 && r.1.NonNull? && IsUserSingleton(r.1.value)
    ensures IsNumericNotation(s) ==> r.1 == NonNull(ParseNumericValue(s).value)
    ensures IsSymbolicNotation(s) ==> r.1 == NonNull(SymbolicCollapse(s))
    ensures !IsNumericNotation(s) && !IsSymbolicNotation(s) ==> r.1 == NonNull(None)
  {
    var isNumeric := IsNumericNotation(s);
    var isSymbolic := IsSymbolicNotation(s);
    Catch(
      if isNumeric && !isSymbolic then ParseNumericValue(s)
      else if isSymbolic && !isNumeric then ParseSymbolicValue(s)
      else Ok(UserRead & UserWrite))
  }

  // Properties relating the parser to its tables.

  /** Every three-character string is rejected, `"740"` included. */
  lemma ParseNumericValueRejectsThreeDigits(s: string)
    requires |s| == 3
    ensures ParseNumericValue(s) == Throws(ArgumentException(InvalidSymbolicNotation))
  {
  }

  /** The multi-flag patterns collapse to `None`; a single-permission
      pattern gives its user flag only. */
  lemma ParseSymbolicValueCollapses()
    ensures ParseSymbolicValue("-rwxrwxrwx") == Ok(None)
    ensures ParseSymbolicValue("-rwxr-----") == Ok(None)
    ensures ParseSymbolicValue("-r--r--r--") == Ok(UserRead)
  {
    assert SymbolicPatterns[4] == "-r--r--r--";
    assert SymbolicPatterns[8] == "-rwxr-----";
    assert SymbolicPatterns[10] == "-rwxrwxrwx";
  }
}
