/** `UnixFilePermissionConverter`: conversion between symbolic notation
    (`-rwxr-----`) and octal notation, by two literal tables. */
module PermissionConverter {
  import opened DotNet
  import opened NotationDetection

  /** The values the `ToSymbolicNotation` table lists: those of numeric
      detection and also 770. */
  const ConvertibleValues: set<int> := {0, 111, 222, 333, 444, 555, 666, 700, 740, 770, 777}

  // Reference definition of both notations from the three octal digits
  // of the user, group and other permissions, whose bits are read (4),
  // write (2) and execute (1).

  /** An octal digit. */
  predicate IsOctalDigit(d: int) {
    0 <= d <= 7
  }

  function ReadChar(d: int): (c: char)
    requires IsOctalDigit(d)
    ensures c == 'r' <==> (d / 4) % 2 == 1
    ensures c == 'r' || c == '-'
  {
    if d >= 4 then 'r' else '-'
  }

  function WriteChar(d: int): (c: char)
    requires IsOctalDigit(d)
    ensures c == 'w' <==> (d / 2) % 2 == 1
    ensures c == 'w' || c == '-'
  {
    if d in {2, 3, 6, 7} then 'w' else '-'
  }

  function ExecuteChar(d: int): (c: char)
    requires IsOctalDigit(d)
    ensures c == 'x' <==> d % 2 == 1
    ensures c == 'x' || c == '-'
  {
    if d in {1, 3, 5, 7} then 'x' else '-'
  }

  /** The symbolic notation of a regular file with the given user, group
      and other digits. */
  function Symbolic(u: int, g: int, o: int): (r: string)
    requires IsOctalDigit(u) && IsOctalDigit(g) && IsOctalDigit(o)
    ensures |r| == 10 && r[0] == '-'
  {
    ['-', ReadChar(u), WriteChar(u), ExecuteChar(u),
     ReadChar(g), WriteChar(g), ExecuteChar(g),
     ReadChar(o), WriteChar(o), ExecuteChar(o)]
  }

  function DigitChar(d: int): (c: char)
    requires 0 <= d <= 9
    ensures IsDigit(c) && DigitValue(c) == d
  {
    (d + '0' as int) as char
  }

  /** The octal notation, with its leading `'0'`, of the given digits. */
  function Octal(u: int, g: int, o: int): (r: string)
    requires IsOctalDigit(u) && IsOctalDigit(g) && IsOctalDigit(o)
    ensures |r| == 4 && r[0] == '0' && AllDigits(r)
    ensures DigitValue(r[1]) == u && DigitValue(r[2]) == g && DigitValue(r[3]) == o
  {
    ['0', DigitChar(u), DigitChar(g), DigitChar(o)]
  }

  /** The decimal value whose three digits are `u`, `g` and `o`. */
  function ValueOf(u: int, g: int, o: int): int {
    100 * u + 10 * g + o
  }

  // The converter.

  /** The `switch` of `ToNumericNotation`. */
  function NumericTable(s: string): (r: Result<string>)
    ensures r.Ok? <==> s in SymbolicPatterns
    ensures r.Throws? ==> r.exception == ArgumentException(InvalidSymbolicNotation)
  {
    match s
    case "----------" => Ok("0000")
    case "---x--x--x" => Ok("0111")
    case "--w--w--w-" => Ok("0222")
    case "--wx-wx-wx" => Ok("0333")
    case "-r--r--r--" => Ok("0444")
    case "-r-xr-xr-x" => Ok("0555")
    case "-rw-rw-rw-" => Ok("0666")
    case "-rwx------" => Ok("0700")
    case "-rwxr-----" => Ok("0740")
    case "-rwxrwx---" => Ok("0770")
    case "-rwxrwxrwx" => Ok("0777")
    case _ => Throws(ArgumentException(InvalidSymbolicNotation))
  }

  /** `ToNumericNotation`: a ten-character string is looked up in the table;
      anything else throws. */
  function ToNumericNotation(s: string): (r: Result<string>)
    ensures r.Ok? <==> IsSymbolicNotation(s)
    ensures r.Throws? ==> r.exception == ArgumentException(InvalidSymbolicNotation)
  {
    if |s| == 10 then NumericTable(s) else Throws(ArgumentException(InvalidSymbolicNotation))
  }

  /** The `switch` of `ToSymbolicNotation`. */
  function SymbolicTable(v: int): (r: Result<string>)
    ensures r.Ok? <==> v in ConvertibleValues
    ensures r.Throws? ==> r.exception == ArgumentException(InvalidSymbolicNotation)
  {
    match v
    case 0 => Ok("----------")
    case 111 => Ok("---x--x--x")
    case 222 => Ok("--w--w--w-")
    case 333 => Ok("--wx-wx-wx")
    case 444 => Ok("-r--r--r--")
    case 555 => Ok("-r-xr-xr-x")
    case 666 => Ok("-rw-rw-rw-")
    case 700 => Ok("-rwx------")
    case 740 => Ok("-rwxr-----")
    case 770 => Ok("-rwxrwx---")
    case 777 => Ok("-rwxrwxrwx")
    case _ => Throws(ArgumentException(InvalidSymbolicNotation))
  }

  /** `ToSymbolicNotation`: a three-character string that `int.TryParse`
      accepts is looked up by value; a value missing from the table throws
      with the symbolic-notation message, anything else with the
      numeric-notation message. */
  function ToSymbolicNotation(n: string): (r: Result<string>)
    ensures r.Ok? <==> |n| == 3 && TryParseInt(n).NonNull? && TryParseInt(n).value in ConvertibleValues
    ensures r.Throws? && |n| == 3 && TryParseInt(n).NonNull? ==> r.exception == ArgumentException(InvalidSymbolicNotation)
    ensures r.Throws? && !(|n| == 3 && TryParseInt(n).NonNull?) ==> r.exception == ArgumentException(InvalidNumericNotation)
  {
    if |n| == 3 && TryParseInt(n).NonNull? then SymbolicTable(TryParseInt(n).value)
    else Throws(ArgumentException(InvalidNumericNotation))
  }

  // The two tables against the reference definition.

  /** Every entry of the `ToSymbolicNotation` table is the symbolic notation
      of its digits. */
  lemma SymbolicTableMeaning(u: int, g: int, o: int)
    requires IsOctalDigit(u) && IsOctalDigit(g) && IsOctalDigit(o)
    requires ValueOf(u, g, o) in ConvertibleValues
    ensures SymbolicTable(ValueOf(u, g, o)) == Ok(Symbolic(u, g, o))
  {
  }

  /** Every entry of the `ToSymbolicNotation` table is a symbolic pattern. */
  lemma SymbolicTableInPatterns(v: int)
    requires v in ConvertibleValues
    ensures SymbolicTable(v).value in SymbolicPatterns
  {
  }

  /** `r` is `'0'` and three octal digits of a listed value whose bits
      `s` shows. */
  predicate IsOctalOf(s: string, r: string) {
    |r| == 4 && r[0] == '0' && AllDigits(r) &&
    IsOctalDigit(DigitValue(r[1])) && IsOctalDigit(DigitValue(r[2])) && IsOctalDigit(DigitValue(r[3])) &&
    ValueOf(DigitValue(r[1]), DigitValue(r[2]), DigitValue(r[3])) in ConvertibleValues &&
    s == Symbolic(DigitValue(r[1]), DigitValue(r[2]), DigitValue(r[3]))
  }

  /** One entry of the `ToNumericNotation` table. */
  lemma OctalEntry(s: string, r: string, u: int, g: int, o: int)
    requires IsOctalDigit(u) && IsOctalDigit(g) && IsOctalDigit(o)
    requires ValueOf(u, g, o) in ConvertibleValues
    requires NumericTable(s) == Ok(r)
    requires r == Octal(u, g, o)
    requires s == Symbolic(u, g, o)
    ensures IsOctalOf(s, NumericTable(s).value)
  {
  }

  /** The first six entries of the `ToNumericNotation` table. */
  lemma NumericTableLow(s: string, i: int)
    requires 0 <= i < 6 && SymbolicPatterns[i] == s
    ensures IsOctalOf(s, NumericTable(s).value)
  {
    if i == 0 {
      assert NumericTable(s) == Ok("0000") && "0000" == Octal(0, 0, 0) && s == Symbolic(0, 0, 0);
      OctalEntry(s, "0000", 0, 0, 0);
    } else if i == 1 {
      assert NumericTable(s) == Ok("0111") && "0111" == Octal(1, 1, 1) && s == Symbolic(1, 1, 1);
      OctalEntry(s, "0111", 1, 1, 1);
    } else if i == 2 {
      assert NumericTable(s) == Ok("0222") && "0222" == Octal(2, 2, 2) && s == Symbolic(2, 2, 2);
      OctalEntry(s, "0222", 2, 2, 2);
    } else if i == 3 {
      assert NumericTable(s) == Ok("0333") && "0333" == Octal(3, 3, 3) && s == Symbolic(3, 3, 3);
      OctalEntry(s, "0333", 3, 3, 3);
    } else if i == 4 {
      assert NumericTable(s) == Ok("0444") && "0444" == Octal(4, 4, 4) && s == Symbolic(4, 4, 4);
      OctalEntry(s, "0444", 4, 4, 4);
    } else {
      assert NumericTable(s) == Ok("0555") && "0555" == Octal(5, 5, 5) && s == Symbolic(5, 5, 5);
      OctalEntry(s, "0555", 5, 5, 5);
    }
  }

  /** The last five entries of the `ToNumericNotation` table. */
  lemma NumericTableHigh(s: string, i: int)
    requires 6 <= i < 11 && SymbolicPatterns[i] == s
    ensures IsOctalOf(s, NumericTable(s).value)
  {
    if i == 6 {
      assert NumericTable(s) == Ok("0666") && "0666" == Octal(6, 6, 6) && s == Symbolic(6, 6, 6);
      OctalEntry(s, "0666", 6, 6, 6);
    } else if i == 7 {
      assert NumericTable(s) == Ok("0700") && "0700" == Octal(7, 0, 0) && s == Symbolic(7, 0, 0);
      OctalEntry(s, "0700", 7, 0, 0);
    } else if i == 8 {
      assert NumericTable(s) == Ok("0740") && "0740" == Octal(7, 4, 0) && s == Symbolic(7, 4, 0);
      OctalEntry(s, "0740", 7, 4, 0);
    } else if i == 9 {
      assert NumericTable(s) == Ok("0770") && "0770" == Octal(7, 7, 0) && s == Symbolic(7, 7, 0);
      OctalEntry(s, "0770", 7, 7, 0);
    } else {
      assert NumericTable(s) == Ok("0777") && "0777" == Octal(7, 7, 7) && s == Symbolic(7, 7, 7);
      OctalEntry(s, "0777", 7, 7, 7);
    }
  }

  /** Every entry of the `ToNumericNotation` table is the octal notation of
      the permissions its pattern shows. */
  lemma NumericTableMeaning(s: string)
    requires s in SymbolicPatterns
    ensures IsOctalOf(s, NumericTable(s).value)
  {
    var i :| 0 <= i < |SymbolicPatterns| && SymbolicPatterns[i] == s;
    if i < 6 {
      NumericTableLow(s, i);
    } else {
      NumericTableHigh(s, i);
    }
  }

  /** The three characters of an octal digit determine it. */
  lemma {:induction false} TriadDeterminesDigit(d: int, e: int)
    requires IsOctalDigit(d) && IsOctalDigit(e)
    requires ReadChar(d) == ReadChar(e) && WriteChar(d) == WriteChar(e) && ExecuteChar(d) == ExecuteChar(e)
    ensures d == e
  {
    assert d == 4 * ((d / 4) % 2) + 2 * ((d / 2) % 2) + d % 2;
    assert e == 4 * ((e / 4) % 2) + 2 * ((e / 2) % 2) + e % 2;
  }

  /** Symbolic notation determines the three digits. */
  lemma SymbolicInjective(u: int, g: int, o: int, u': int, g': int, o': int)
    requires IsOctalDigit(u) && IsOctalDigit(g) && IsOctalDigit(o)
    requires IsOctalDigit(u') && IsOctalDigit(g') && IsOctalDigit(o')
    requires Symbolic(u, g, o) == Symbolic(u', g', o')
    ensures u == u' && g == g' && o == o'
  {
    var s, s' := Symbolic(u, g, o), Symbolic(u', g', o');
    assert s[1] == s'[1] && s[2] == s'[2] && s[3] == s'[3];
    assert s[4] == s'[4] && s[5] == s'[5] && s[6] == s'[6];
    assert s[7] == s'[7] && s[8] == s'[8] && s[9] == s'[9];
    TriadDeterminesDigit(u, u');
    TriadDeterminesDigit(g, g');
    TriadDeterminesDigit(o, o');
  }

  /** The digits of a listed value are octal and make it up. */
  lemma ListedValueDigits(v: int)
    requires v in ConvertibleValues
    ensures IsOctalDigit(v / 100) && IsOctalDigit((v / 10) % 10) && IsOctalDigit(v % 10)
    ensures ValueOf(v / 100, (v / 10) % 10, v % 10) == v
  {
  }

  /** A three-digit string parses to its decimal value. */
  lemma TryParseThreeDigits(n: string)
    requires |n| == 3 && AllDigits(n)
    ensures TryParseInt(n) == NonNull(ValueOf(DigitValue(n[0]), DigitValue(n[1]), DigitValue(n[2])))
  {
    ParseAllDigits(n);
    DigitsValue3(n);
  }

  // What the converter computes, and its two round trips.

  /** `ToSymbolicNotation` gives the symbolic notation of the digits of the
      value `int.TryParse` reads. */
  lemma ToSymbolicNotationMeaning(n: string)
    requires ToSymbolicNotation(n).Ok?
    ensures var v := TryParseInt(n).value;
      IsOctalDigit(v / 100) && IsOctalDigit((v / 10) % 10) && IsOctalDigit(v % 10) &&
      ToSymbolicNotation(n).value == Symbolic(v / 100, (v / 10) % 10, v % 10)
  {
    var v := TryParseInt(n).value;
    ListedValueDigits(v);
    SymbolicTableMeaning(v / 100, (v / 10) % 10, v % 10);
  }

  /** `ToNumericNotation` gives `'0'` and the digits of the permissions the
      symbolic notation shows. */
  lemma ToNumericNotationMeaning(s: string)
    requires IsSymbolicNotation(s)
    ensures var r := ToNumericNotation(s).value;
      |r| == 4 && r[0] == '0' && AllDigits(r) &&
      IsOctalDigit(DigitValue(r[1])) && IsOctalDigit(DigitValue(r[2])) && IsOctalDigit(DigitValue(r[3])) &&
      s == Symbolic(DigitValue(r[1]), DigitValue(r[2]), DigitValue(r[3]))
  {
    NumericTableMeaning(s);
  }

  /** Converting to numeric notation and converting its last three digits
      back gives the original; the four-character result itself is refused
      by `ToSymbolicNotation`. */
  lemma NumericRoundTrip(s: string)
    requires IsSymbolicNotation(s)
    ensures ToSymbolicNotation(ToNumericNotation(s).value[1..]) == Ok(s)
    ensures ToSymbolicNotation(ToNumericNotation(s).value) == Throws(ArgumentException(InvalidNumericNotation))
  {
    var r := ToNumericNotation(s).value;
    NumericTableMeaning(s);
    var n := r[1..];
    assert n[0] == r[1] && n[1] == r[2] && n[2] == r[3];
    TryParseThreeDigits(n);
    SymbolicTableMeaning(DigitValue(r[1]), DigitValue(r[2]), DigitValue(r[3]));
  }

  /** Converting to symbolic notation and back gives the octal notation of
      the parsed value, with its leading `'0'`. */
  lemma SymbolicRoundTrip(n: string)
    requires ToSymbolicNotation(n).Ok?
    ensures var v := TryParseInt(n).value;
      IsOctalDigit(v / 100) && IsOctalDigit((v / 10) % 10) && IsOctalDigit(v % 10) &&
      ToNumericNotation(ToSymbolicNotation(n).value) == Ok(Octal(v / 100, (v / 10) % 10, v % 10))
  {
    var v := TryParseInt(n).value;
    var u, g, o := v / 100, (v / 10) % 10, v % 10;
    ToSymbolicNotationMeaning(n);
    var s := ToSymbolicNotation(n).value;
    SymbolicTableInPatterns(v);
    NumericTableMeaning(s);
    var r := NumericTable(s).value;
    SymbolicInjective(DigitValue(r[1]), DigitValue(r[2]), DigitValue(r[3]), u, g, o);
    DigitCharOf(r[1]);
    DigitCharOf(r[2]);
    DigitCharOf(r[3]);
    assert r == Octal(u, g, o);
  }

  /** The decimal digits of a three-digit value. */
  lemma ValueDigits(a: int, b: int, c: int)
    requires 0 <= a <= 9 && 0 <= b <= 9 && 0 <= c <= 9
    ensures ValueOf(a, b, c) / 100 == a && (ValueOf(a, b, c) / 10) % 10 == b && ValueOf(a, b, c) % 10 == c
  {
    var v := ValueOf(a, b, c);
    assert v == 100 * a + (10 * b + c) && 0 <= 10 * b + c < 100;
    assert v / 100 == a;
    assert v == 10 * (10 * a + b) + c;
    assert v / 10 == 10 * a + b;
  }

  lemma DigitCharOf(c: char)
    requires IsDigit(c)
    ensures DigitChar(DigitValue(c)) == c
  {
  }

  /** On three digits, the round trip gives back the input behind a `'0'`. */
  lemma SymbolicRoundTripOnDigits(n: string)
    requires |n| == 3 && AllDigits(n) && ToSymbolicNotation(n).Ok?
    ensures ToNumericNotation(ToSymbolicNotation(n).value) == Ok(['0'] + n)
  {
    TryParseThreeDigits(n);
    SymbolicRoundTrip(n);
    ValueDigits(DigitValue(n[0]), DigitValue(n[1]), DigitValue(n[2]));
    DigitCharOf(n[0]);
    DigitCharOf(n[1]);
    DigitCharOf(n[2]);
    var r := Octal(DigitValue(n[0]), DigitValue(n[1]), DigitValue(n[2]));
    assert r[1..] == n;
    assert r == ['0'] + r[1..];
  }

  /** A repeated octal digit converts to three identical triads. */
  lemma RepeatedDigit(c: char)
    requires IsDigit(c) && DigitValue(c) <= 7
    ensures var d := DigitValue(c);
      ToSymbolicNotation([c, c, c]) == Ok(Symbolic(d, d, d)) &&
      Symbolic(d, d, d)[1..4] == Symbolic(d, d, d)[4..7] == Symbolic(d, d, d)[7..10]
  {
    var d := DigitValue(c);
    var n := [c, c, c];
    assert n[0] == c && n[1] == c && n[2] == c;
    TryParseThreeDigits(n);
    assert ValueOf(d, d, d) in ConvertibleValues by {
      assert ValueOf(d, d, d) == 111 * d;
      assert d == 0 || d == 1 || d == 2 || d == 3 || d == 4 || d == 5 || d == 6 || d == 7;
    }
    SymbolicTableMeaning(d, d, d);
    RepeatedTriads(d);
  }

  /** Equal digits give equal triads. */
  lemma RepeatedTriads(d: int)
    requires IsOctalDigit(d)
    ensures Symbolic(d, d, d)[1..4] == Symbolic(d, d, d)[4..7] == Symbolic(d, d, d)[7..10]
  {
    var r := Symbolic(d, d, d);
    var triad := [ReadChar(d), WriteChar(d), ExecuteChar(d)];
    assert r[1..4] == triad && r[4..7] == triad && r[7..10] == triad;
  }

  /** `"-rwxrwx---"` converts to `"0770"`, which numeric detection rejects,
      and `"0740"`, the form numeric detection asks for, cannot be converted
      back. */
  lemma ConverterAndDetectionDisagree()
    ensures ToNumericNotation("-rwxrwx---") == Ok("0770") && !IsNumericNotation("0770")
    ensures ToSymbolicNotation("0740") == Throws(ArgumentException(InvalidNumericNotation))
  {
    NumericDetectionRejects0770();
  }

  /** `int.TryParse` lets a sign through: `"+00"` converts like `"000"`. */
  lemma ToSymbolicNotationAcceptsSign(digits: string)
    requires |digits| == 2 && AllDigits(digits) && DigitsValue(digits) == 0
    ensures ToSymbolicNotation("+" + digits) == Ok("----------")
    ensures ToSymbolicNotation("-" + digits) == Ok("----------")
  {
    ParseSignDigits("+", digits);
    ParseSignDigits("-", digits);
    assert ParseInteger("+" + digits) == ParseSignedDigits("+" + digits) by {
      assert TrimTrailingNuls("+" + digits) == "+" + digits;
    }
  }
}
