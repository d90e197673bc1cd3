/** The notation tables and the two detection predicates
    (`UnixFilePermissionNotationDetectionExtensions`) that every parser and
    converter of the library consults. */
module NotationDetection {
  import opened DotNet

  /** The eleven whole-string symbolic patterns, in the order the library
      lists them. */
  const SymbolicPatterns: seq<string> := [
    "----------", "---x--x--x", "--w--w--w-", "--wx-wx-wx", "-r--r--r--", "-r-xr-xr-x",
    "-rw-rw-rw-", "-rwx------", "-rwxr-----", "-rwxrwx---", "-rwxrwxrwx"
  ]

  /** The integer values numeric detection accepts. 770 is not among them. */
  const NumericValues: set<int> := {0, 111, 222, 333, 444, 555, 666, 700, 740, 777}

  /** A `'0'` followed by three ASCII digits whose value is in
      `NumericValues`: "0000", "0111", ..., "0740", "0777". */
  predicate IsCanonicalNumeric(s: string) {
    |s| == 4 && s[0] == '0' && AllDigits(s[1..]) && DigitsValue(s[1..]) in NumericValues
  }

  /** `IsNumericNotation`: exactly four characters that `int.TryParse`
      accepts, with a value among `NumericValues`. */
  predicate IsNumericNotation(s: string)
    ensures IsNumericNotation(s) ==> |s| == 4
  {
    if |s| != 4 || TryParseInt(s).Null? then false
    else TryParseInt(s).value in NumericValues
  }

  /** `IsSymbolicNotation`: exactly ten characters equal, character for
      character, to one of the eleven patterns. */
  predicate IsSymbolicNotation(s: string)
    ensures IsSymbolicNotation(s) ==> |s| == 10
    ensures IsSymbolicNotation(s) <==> s in SymbolicPatterns
  {
    if |s| != 10 then false
    else s in SymbolicPatterns
  }

  // Properties of the two predicates.

  /** Neither predicate holds of the empty string, of a string longer than
      ten characters, or of any string of a length other than four or ten;
      and no string satisfies both. */
  lemma DetectionLengths(s: string)
    ensures |s| != 4 ==> !IsNumericNotation(s)
    ensures |s| != 10 ==> !IsSymbolicNotation(s)
    ensures !(IsNumericNotation(s) && IsSymbolicNotation(s))
  {
  }

  /** The value `int.TryParse` gives a four-digit string. */
  lemma TryParseFourDigits(s: string)
    requires |s| == 4 && AllDigits(s)
    ensures TryParseInt(s) == NonNull(1000 * DigitValue(s[0]) + DigitsValue(s[1..]))
  {
    ParseAllDigits(s);
    DigitsValue4(s);
    DigitsValue3(s[1..]);
  }

  /** On strings made only of digits, numeric detection accepts exactly a
      `'0'` followed by the three digits of a listed value. */
  lemma {:induction false} NumericDetectionOnDigits(s: string)
    requires |s| == 4 && AllDigits(s)
    ensures IsNumericNotation(s) <==> IsCanonicalNumeric(s)
  {
    TryParseFourDigits(s);
    DigitsValue3(s[1..]);
  }

  lemma DetectedByValue(s: string, v: int)
    requires |s| == 4 && ParseInteger(s) == NonNull(v) && v in NumericValues
    ensures IsNumericNotation(s)
  {
  }

  /** `"0770"`, the numeric form of `"-rwxrwx---"`, is rejected because 770
      is missing from `NumericValues`. */
  lemma NumericDetectionRejects0770()
    ensures !IsNumericNotation("0770")
  {
    assert "0770"[1..] == "770";
    NumericDetectionOnDigits("0770");
    DigitsValue3("770");
  }

  /** Detection inherits the leniency of `int.TryParse`: a `'+'` or a white
      space character may stand before the three digits of a listed value in
      place of the leading zero; so may a `'-'` before `"000"`. */
  lemma {:induction false} NumericDetectionAcceptsLeadingSignOrWhite(c: char, digits: string)
    requires |digits| == 3 && AllDigits(digits) && DigitsValue(digits) in NumericValues
    requires IsWhite(c) || c == '+' || (c == '-' && DigitsValue(digits) == 0)
    ensures IsNumericNotation([c] + digits)
  {
    var s := [c] + digits;
    if IsWhite(c) {
      assert s == [c] + "" + digits + "" + "";
      ParseWellFormed([c], "", digits, "", "");
    } else {
      assert s == "" + [c] + digits + "" + "";
      ParseWellFormed("", [c], digits, "", "");
    }
  }

  /** Likewise a white space character may follow the three digits of a
      listed value. */
  lemma {:induction false} NumericDetectionAcceptsTrailingWhite(digits: string, c: char)
    requires |digits| == 3 && AllDigits(digits) && DigitsValue(digits) in NumericValues
    requires IsWhite(c)
    ensures IsNumericNotation(digits + [c])
  {
    ParseDigitsThenWhite(digits, [c]);
    DetectedByValue(digits + [c], DigitsValue(digits));
  }

  /** Every accepted symbolic string is already lower case. */
  lemma {:induction false} SymbolicIsLowerCase(s: string)
    requires IsSymbolicNotation(s)
    ensures forall i :: 0 <= i < |s| ==> s[i] in {'-', 'r', 'w', 'x'}
    ensures ToLower(s) == s
  {
  }

  /** Symbolic detection is case-sensitive. */
  lemma SymbolicDetectionIsCaseSensitive()
    ensures IsSymbolicNotation("-rwxrwxrwx")
    ensures !IsSymbolicNotation("-RWXRWXRWX")
  {
  }
}
