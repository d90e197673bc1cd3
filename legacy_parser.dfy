/** The older `UnixFilePermissionParser`, which carries its own detection
    predicates instead of the shared detection extensions. */
module LegacyPermissionParser {
  import opened DotNet
  import opened UnixFileModes
  import Detection = NotationDetection
  import Current = PermissionParser

  /** Numeric detection: four characters that `int.TryParse` reads as one
      of the listed values. */
  predicate IsNumericNotation(s: string)
    ensures IsNumericNotation(s) ==> |s| == 4 && TryParseInt(s).NonNull?
  {
    if |s| == 4 && TryParseInt(s).NonNull? then
      match TryParseInt(s).value
      case 0 | 111 | 222 | 333 | 444 | 555 | 666 | 700 | 740 | 777 => true
      case _ => false
    else
      false
  }

  /** Symbolic detection: one of the eleven patterns, compared exactly. */
  predicate IsSymbolicNotation(s: string)
    ensures IsSymbolicNotation(s) ==> |s| == 10 && s[0] == '-'
  {
    if |s| == 10 then
      match s
      case "----------" | "---x--x--x" | "--w--w--w-" | "--wx-wx-wx" | "-r--r--r--" | "-r-xr-xr-x"
         | "-rw-rw-rw-" | "-rwx------" | "-rwxr-----" | "-rwxrwx---" | "-rwxrwxrwx" => true
      case _ => false
    else
      false
  }

  /** `ParseNumericValue`: detection first, then the value table. */
  function ParseNumericValue(s: string): (r: Result<UnixFileMode>)
    ensures r.Ok? <==> IsNumericNotation(s)
    ensures r.Ok? ==> r.value == NumericCollapse(TryParseInt(s).value)
    ensures r.Throws? ==> r.exception == ArgumentException(InvalidSymbolicNotation)
  {
    if IsNumericNotation(s) && TryParseInt(s).NonNull? then
      match NumericValueMode(TryParseInt(s).value)
      case NonNull(m) => Ok(m)
      case Null => Throws(ArgumentException(InvalidNumericNotation))
    else
      Throws(ArgumentException(InvalidSymbolicNotation))
  }

  function TryParseNumericValue(s: string): (r: (bool, Nullable<UnixFileMode>))
    ensures r.0 <==> IsNumericNotation(s)
    ensures r.0 ==> r.1 == NonNull(NumericCollapse(TryParseInt(s).value))
    ensures !r.0 ==> r.1 == Null
  {
    Catch(ParseNumericValue(s))
  }

  /** `ParseSymbolicValue`: detection first, then the pattern table on the
      lower-cased string. */
  function ParseSymbolicValue(s: string): (r: Result<UnixFileMode>)
    ensures r.Ok? <==> IsSymbolicNotation(s)
    ensures r.Ok? ==> r.value == SymbolicCollapse(s)
    ensures r.Throws? ==> r.exception == ArgumentException(InvalidSymbolicNotation)
  {
    if IsSymbolicNotation(s) then
      SymbolicDetectionAgrees(s);
      Detection.SymbolicIsLowerCase(s);
      match SymbolicPatternMode(ToLower(s))
      case NonNull(m) => Ok(m)
      case Null => Throws(ArgumentException(InvalidSymbolicNotation))
    else
      Throws(ArgumentException(InvalidSymbolicNotation))
  }

  function TryParseSymbolicValue(s: string): (r: (bool, Nullable<UnixFileMode>))
    ensures r.0 <==> IsSymbolicNotation(s)
    ensures r.0 ==> r.1 == NonNull(SymbolicCollapse(s))
    ensures !r.0 ==> r.1 == Null
  {
    Catch(ParseSymbolicValue(s))
  }

  /** `TryParse`: numeric when only numeric detection holds, symbolic when
      only symbolic detection holds, and `UserRead & UserWrite` otherwise. */
  function TryParse(s: string): (r: (bool, Nullable<UnixFileMode>))
    ensures r.0 && r.1.NonNull? && IsUserSingleton(r.1.value)
  {
    var isNumeric := IsNumericNotation(s);
    var isSymbolic := IsSymbolicNotation(s);
    Catch(
      if isNumeric && !isSymbolic then ParseNumericValue(s)
      else if isSymbolic && !isNumeric then ParseSymbolicValue(s)
      else Ok(UserRead & UserWrite))
  }

  // The older parser against the current one.

  /** The inline numeric detection is the shared one. */
  lemma NumericDetectionAgrees(s: string)
    ensures IsNumericNotation(s) <==> Detection.IsNumericNotation(s)
  {
  }

  /** The inline symbolic detection is the shared one. */
  lemma SymbolicDetectionAgrees(s: string)
    ensures IsSymbolicNotation(s) <==> Detection.IsSymbolicNotation(s)
  {
  }

  /** Both parsers give the same result, exception included, on every
      string. */
  lemma ParsersAgree(s: string)
    ensures ParseNumericValue(s) == Current.ParseNumericValue(s)
    ensures ParseSymbolicValue(s) == Current.ParseSymbolicValue(s)
    ensures TryParse(s) == Current.TryParse(s)
  {
    NumericDetectionAgrees(s);
    SymbolicDetectionAgrees(s);
  }
}
