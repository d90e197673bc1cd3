/** `UnixFileModeParser`: digit-wise parsing of numeric notation, and
    symbolic parsing through the shared pattern table. */
module FileModeParser {
  import opened DotNet
  import opened UnixFileModes
  import opened NotationDetection
  import PermissionParser

  /** The user step of `ParseNumericNotation`: the digit's flags, combined
      with `&`. */
  function UserStep(user: int): (r: Result<UnixFileMode>)
    ensures r.Ok? <==> 0 <= user <= 7
    ensures r.Ok? ==> r.value & 0xE3F == 0
  {
    match user
    case 0 => Ok(None)
    case 1 => Ok(UserExecute)
    case 2 => Ok(UserWrite)
    case 3 => Ok(UserWrite & UserExecute)
    case 4 => Ok(UserRead)
    case 5 => Ok(UserRead & UserExecute)
    case 6 => Ok(UserRead & UserWrite)
    case 7 => Ok(UserRead & UserWrite & UserExecute)
    case _ => Throws(ArgumentException(NoMessage))
  }

  /** The group step: the running value ANDed with the digit's group flags.
      The result never keeps a bit outside the group triad. */
  function GroupStep(output: UnixFileMode, group: int): (r: Result<UnixFileMode>)
    ensures r.Ok? <==> 0 <= group <= 7
    ensures r.Ok? ==> r.value & 0xFC7 == 0 && r.value & output == r.value
  {
    match group
    case 0 => Ok(output & None)
    case 1 => Ok(output & GroupExecute)
    case 2 => Ok(output & GroupWrite)
    case 3 => Ok(output & GroupWrite & GroupExecute)
    case 4 => Ok(output & GroupRead)
    case 5 => Ok(output & GroupRead & GroupExecute)
    case 6 => Ok(output & GroupRead & GroupWrite)
    case 7 => Ok(output & GroupRead & GroupWrite & GroupExecute)
    case _ => Throws(ArgumentException(NoMessage))
  }

  /** The others step: the running value ANDed with the digit's other
      flags. The result never keeps a bit outside the other triad. */
  function OthersStep(output: UnixFileMode, others: int): (r: Result<UnixFileMode>)
    ensures r.Ok? <==> 0 <= others <= 7
    ensures r.Ok? ==> r.value & 0xFF8 == 0 && r.value & output == r.value
  {
    match others
    case 0 => Ok(output & None)
    case 1 => Ok(output & OtherExecute)
    case 2 => Ok(output & OtherWrite)
    case 3 => Ok(output & OtherWrite & OtherExecute)
    case 4 => Ok(output & OtherRead)
    case 5 => Ok(output & OtherRead & OtherExecute)
    case 6 => Ok(output & OtherRead & OtherWrite)
    case 7 => Ok(output & OtherRead & OtherWrite & OtherExecute)
    case _ => Throws(ArgumentException(NoMessage))
  }

  /** `ParseNumericNotation`: detection, removal of a leading `'0'`, then
      the digit steps on what remains. */
  function ParseNumericNotation(s: string): (r: Result<UnixFileMode>)
    // Every successful parse gives `None`: the group step ANDs user-only
    // bits with group bits.
    ensures r.Ok? ==> r.value == None
    ensures !IsNumericNotation(s) ==> r == Throws(ArgumentException(InvalidSymbolicNotation))
  {
    if !IsNumericNotation(s) || TryParseInt(s).Null? then
      Throws(ArgumentException(InvalidSymbolicNotation))
    else
      var notation := if s[0] == '0' then s[1..] else s;
      DigitSteps(notation[0], notation[|notation| - 2], notation[|notation| - 1])
  }

  /** `int.Parse` of the first, second-to-last and last characters, in that
      order, then the user, group and others steps. */
  function DigitSteps(first: char, second: char, last: char): (r: Result<UnixFileMode>)
    ensures r.Ok? ==> r.value == None
  {
    var user :- IntParse([first]);
    var group :- IntParse([second]);
    var others :- IntParse([last]);
    var output :- UserStep(user);
    var output :- GroupStep(output, group);
    OthersStep(output, others)
  }

  /** An octal digit: an ASCII digit below `'8'`. */
  predicate IsOctal(c: char) {
    IsDigit(c) && DigitValue(c) <= 7
  }

  /** The digit steps succeed exactly on three octal digits. A character
      that is not a digit makes `int.Parse` throw a `FormatException`; an
      `'8'` or `'9'` reaches a `_` arm, which throws without a message. */
  lemma DigitStepsOutcome(first: char, second: char, last: char)
    ensures DigitSteps(first, second, last).Ok? <==> IsOctal(first) && IsOctal(second) && IsOctal(last)
    ensures DigitSteps(first, second, last).Throws? ==>
              DigitSteps(first, second, last).exception ==
                (if IsDigit(first) && IsDigit(second) && IsDigit(last) then ArgumentException(NoMessage)
                 else FormatException)
  {
    IntParseOneChar(first);
    IntParseOneChar(second);
    IntParseOneChar(last);
  }

  /** Each digit of a listed numeric value is octal. */
  lemma ListedValueDigits(digits: string)
    requires |digits| == 3 && AllDigits(digits) && DigitsValue(digits) in NumericValues
    ensures IsOctal(digits[0]) && IsOctal(digits[1]) && IsOctal(digits[2])
  {
    DigitsValue3(digits);
  }

  /** `ParseSymbolicNotation`: detection, then the shared pattern table on
      the lower-cased string. */
  function ParseSymbolicNotation(s: string): (r: Result<UnixFileMode>)
    ensures r.Ok? <==> IsSymbolicNotation(s)
    ensures r.Ok? ==> r.value == SymbolicCollapse(s) && AtMostOneBit(r.value)
    ensures r.Throws? ==> r.exception == ArgumentException(InvalidSymbolicNotation)
  {
    if !IsSymbolicNotation(s) then
      Throws(ArgumentException(InvalidSymbolicNotation))
    else
      SymbolicIsLowerCase(s);
      match SymbolicPatternMode(ToLower(s))
      case NonNull(m) => Ok(m)
      case Null => Throws(ArgumentException(InvalidSymbolicNotation))
  }

  function TryParseSymbolicNotation(s: string): (r: (bool, Nullable<UnixFileMode>))
    ensures r.0 <==> IsSymbolicNotation(s)
    ensures r.0 ==> r.1 == NonNull(SymbolicCollapse(s))
    ensures !r.0 ==> r.1 == Null
  {
    Catch(ParseSymbolicNotation(s))
  }

  /** `TryParse`: numeric when only numeric detection holds, symbolic when
      only symbolic detection holds, `false` and `null` otherwise; every
      exception is caught. */
  function TryParse(s: string): (r: (bool, Nullable<UnixFileMode>))
    ensures !r.0 ==> r.1 == Null
    ensures IsSymbolicNotation(s) ==> r == (true, NonNull(SymbolicCollapse(s)))
    ensures IsNumericNotation(s) && r.0 ==> r.1 == NonNull(None)
    ensures !IsNumericNotation(s) && !IsSymbolicNotation(s) ==> r == (false, Null)
  {
    var isNumeric := IsNumericNotation(s);
    var isSymbolic := IsSymbolicNotation(s);
    if isNumeric && !isSymbolic then Catch(ParseNumericNotation(s))
    else if isSymbolic && !isNumeric then Catch(ParseSymbolicNotation(s))
    else (false, Null)
  }

  /** On a detected string, the parse is the digit steps on the first,
      third and fourth characters, or on the last three when the string
      starts with `'0'`. */
  lemma ParseNumericNotationSteps(s: string)
    requires IsNumericNotation(s)
    ensures ParseNumericNotation(s) ==
              if s[0] == '0' then DigitSteps(s[1], s[2], s[3]) else DigitSteps(s[0], s[2], s[3])
  {
    assert |s| == 4 && TryParseInt(s).NonNull?;
    var notation := if s[0] == '0' then s[1..] else s;
    assert ParseNumericNotation(s) == DigitSteps(notation[0], notation[|notation| - 2], notation[|notation| - 1]);
    assert notation[0] == (if s[0] == '0' then s[1] else s[0]);
    assert notation[|notation| - 2] == s[2] && notation[|notation| - 1] == s[3];
  }

  // What ParseNumericNotation accepts.

  /** A detected string that does not start with `'0'` never parses: its
      first or last character is a sign or white space, or all four are
      digits and the value is at least 1000. */
  lemma {:induction false} NoLeadingZeroFails(s: string)
    requires IsNumericNotation(s) && s[0] != '0'
    ensures !IsDigit(s[0]) || !IsDigit(s[3])
  {
    if IsDigit(s[0]) && IsDigit(s[3]) {
      ParsedBetweenDigits(s);
      TryParseFourDigits(s);
    }
  }

  /** `ParseNumericNotation` succeeds exactly on `'0'` followed by the three
      digits of a listed value, and then gives `None`. */
  lemma ParseNumericNotationAccepts(s: string)
    ensures ParseNumericNotation(s).Ok? <==> IsCanonicalNumeric(s)
    ensures IsCanonicalNumeric(s) ==> ParseNumericNotation(s) == Ok(None)
  {
    if IsNumericNotation(s) {
      ParseNumericNotationSteps(s);
      if s[0] == '0' {
        DigitStepsOutcome(s[1], s[2], s[3]);
        if IsDigit(s[1]) && IsDigit(s[2]) && IsDigit(s[3]) {
          assert AllDigits(s);
          NumericDetectionOnDigits(s);
          ListedValueDigits(s[1..]);
        } else {
          assert !AllDigits(s[1..]) by {
            assert s[1..][0] == s[1] && s[1..][1] == s[2] && s[1..][2] == s[3];
          }
        }
      } else {
        DigitStepsOutcome(s[0], s[2], s[3]);
        NoLeadingZeroFails(s);
      }
    } else if IsCanonicalNumeric(s) {
      CanonicalIsDigits(s);
      NumericDetectionOnDigits(s);
    }
  }

  /** Every digit of a canonical numeric string is an ASCII digit. */
  lemma CanonicalIsDigits(s: string)
    requires IsCanonicalNumeric(s)
    ensures AllDigits(s)
  {
    assert forall i | 1 <= i < 4 :: s[i] == s[1..][i - 1];
  }

  /** The `_` arms of the three steps are unreachable: a failed parse is a
      failed detection or a `FormatException` from `int.Parse` of a sign or
      white space character. */
  lemma ParseNumericNotationFailures(s: string)
    requires ParseNumericNotation(s).Throws?
    ensures ParseNumericNotation(s).exception == ArgumentException(InvalidSymbolicNotation)
         || ParseNumericNotation(s).exception == FormatException
  {
    if IsNumericNotation(s) {
      ParseNumericNotationSteps(s);
      if s[0] == '0' {
        DigitStepsOutcome(s[1], s[2], s[3]);
        if IsDigit(s[1]) && IsDigit(s[2]) && IsDigit(s[3]) {
          assert AllDigits(s);
          NumericDetectionOnDigits(s);
          ListedValueDigits(s[1..]);
        }
      } else {
        DigitStepsOutcome(s[0], s[2], s[3]);
        NoLeadingZeroFails(s);
      }
    }
  }

  /** Detection lets through a leading sign or white space character, but
      `int.Parse` of that character then throws. */
  lemma LeadingSignOrWhiteRejected(c: char, digits: string)
    requires |digits| == 3 && AllDigits(digits) && DigitsValue(digits) in NumericValues
    requires IsWhite(c) || c == '+' || (c == '-' && DigitsValue(digits) == 0)
    ensures IsNumericNotation([c] + digits)
    ensures ParseNumericNotation([c] + digits) == Throws(FormatException)
    ensures TryParse([c] + digits) == (false, Null)
  {
    var s := [c] + digits;
    NumericDetectionAcceptsLeadingSignOrWhite(c, digits);
    ParseNumericNotationSteps(s);
    assert s[0] == c && s[2] == digits[1] && s[3] == digits[2];
    DigitStepsOutcome(c, digits[1], digits[2]);
    DetectionLengths(s);
  }

  /** Detection lets through a trailing white space character, but
      `int.Parse` of that character then throws. */
  lemma TrailingWhiteRejected(digits: string, c: char)
    requires |digits| == 3 && AllDigits(digits) && DigitsValue(digits) in NumericValues
    requires IsWhite(c)
    ensures IsNumericNotation(digits + [c])
    ensures ParseNumericNotation(digits + [c]) == Throws(FormatException)
    ensures TryParse(digits + [c]) == (false, Null)
  {
    var s := digits + [c];
    NumericDetectionAcceptsTrailingWhite(digits, c);
    ParseNumericNotationSteps(s);
    assert s[3] == c;
    DigitStepsOutcome(s[0], s[2], c);
    DigitStepsOutcome(s[1], s[2], c);
    DetectionLengths(s);
  }

  /** `TryParse` succeeds exactly on a symbolic pattern or on `'0'` followed
      by the three digits of a listed value. */
  lemma TryParseAccepts(s: string)
    ensures TryParse(s).0 <==> IsSymbolicNotation(s) || IsCanonicalNumeric(s)
    ensures IsCanonicalNumeric(s) ==> TryParse(s).1 == NonNull(None)
    ensures IsSymbolicNotation(s) ==> TryParse(s).1 == NonNull(SymbolicCollapse(s))
  {
    ParseNumericNotationAccepts(s);
    if IsCanonicalNumeric(s) {
      NumericDetectionOnDigits(s);
    }
  }

  /** The symbolic parsers of the two classes agree on every string. */
  lemma ParseSymbolicAgrees(s: string)
    ensures ParseSymbolicNotation(s) == PermissionParser.ParseSymbolicValue(s)
  {
  }
}
