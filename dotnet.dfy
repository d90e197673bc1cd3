/** The slice of the .NET base library that the permission code leans on:
    nullable values, exceptions as results, `int.TryParse` / `int.Parse`
    with the default integer number style, and `String.ToLower`. */
module DotNet {

  /** `T?` in C#: either `null` or a value. */
  datatype Nullable<+T> = Null | NonNull(value: T)

  /** The message resource an `ArgumentException` is built from. */
  datatype Message = NoMessage | InvalidNumericNotation | InvalidSymbolicNotation

  datatype Exception =
    | ArgumentException(message: Message)
    | FormatException
    | OverflowException

  /** A call that either returns a value or throws. Failure-compatible, so
      `:-` propagates a throw the way an uncaught exception does. */
  datatype Result<+T> = Ok(value: T) | Throws(exception: Exception) {
    predicate IsFailure() {
      Throws?
    }

    function PropagateFailure<U>(): Result<U>
      requires Throws?
    {
      Throws(exception)
    }

    function Extract(): T
      requires Ok?
    {
      value
    }
  }

  /** `try { v = call; return true; } catch { v = null; return false; }`,
      the body every `TryParse…` method of the library shares. */
  function Catch<T>(call: Result<T>): (r: (bool, Nullable<T>))
    ensures r.0 <==> call.Ok?
    ensures r.0 ==> r.1 == NonNull(call.value)
    ensures !r.0 ==> r.1 == Null
  {
    match call
    case Ok(v) => (true, NonNull(v))
    case Throws(_) => (false, Null)
  }

  const Int32Min: int := -0x8000_0000
  const Int32Max: int := 0x7FFF_FFFF

  /** The characters `NumberStyles.AllowLeadingWhite` / `AllowTrailingWhite`
      skip: U+0009 to U+000D and the space. */
  predicate IsWhite(c: char) {
    c == ' ' || '\t' <= c <= '\r'
  }

  predicate IsDigit(c: char) {
    '0' <= c <= '9'
  }

  predicate AllDigits(s: string) {
    forall i :: 0 <= i < |s| ==> IsDigit(s[i])
  }

  function DigitValue(c: char): (d: nat)
    requires IsDigit(c)
    ensures d <= 9
  {
    c as int - '0' as int
  }

  /** The decimal value of a run of ASCII digits, most significant first. */
  function DigitsValue(s: string): nat
    requires AllDigits(s)
  {
    if |s| == 0 then 0 else 10 * DigitsValue(s[..|s| - 1]) + DigitValue(s[|s| - 1])
  }

  /** .NET accepts any number of NUL characters after the number. */
  function TrimTrailingNuls(s: string): (r: string)
    ensures |r| <= |s|
    ensures |r| == 0 || r[|r| - 1] != '\0'
  {
    if |s| > 0 && s[|s| - 1] == '\0' then TrimTrailingNuls(s[..|s| - 1]) else s
  }

  function TrimTrailingWhite(s: string): (r: string)
    ensures |r| <= |s|
    ensures |r| == 0 || !IsWhite(r[|r| - 1])
  {
    if |s| > 0 && IsWhite(s[|s| - 1]) then TrimTrailingWhite(s[..|s| - 1]) else s
  }

  function TrimLeadingWhite(s: string): (r: string)
    ensures |r| <= |s|
    ensures |r| == 0 || !IsWhite(r[0])
  {
    if |s| > 0 && IsWhite(s[0]) then TrimLeadingWhite(s[1..]) else s
  }

  /** The syntax of `NumberStyles.Integer` with the invariant culture's signs:
      leading white, at most one `+` or `-`, one or more ASCII digits,
      trailing white, trailing NULs. `Null` when the text does not match;
      the value is not yet range-checked. */
  function ParseInteger(s: string): Nullable<int> {
    ParseSignedDigits(TrimLeadingWhite(TrimTrailingWhite(TrimTrailingNuls(s))))
  }

  /** What is left once white space and NULs are trimmed: an optional sign
      and at least one digit. */
  function ParseSignedDigits(t: string): Nullable<int> {
    if |t| == 0 then Null
    else
      var body := if t[0] == '+' || t[0] == '-' then t[1..] else t;
      if |body| == 0 || !AllDigits(body) then Null
      else
        var magnitude: int := DigitsValue(body);
        NonNull(if t[0] == '-' then -magnitude else magnitude)
  }

  /** `int.TryParse(s, out int result)`: `Null` stands for a `false` return. */
  function TryParseInt(s: string): (r: Nullable<int>)
    ensures r.NonNull? ==> Int32Min <= r.value <= Int32Max
    ensures r.NonNull? ==> ParseInteger(s) == r
    ensures ParseInteger(s).NonNull? && Int32Min <= ParseInteger(s).value <= Int32Max ==> r.NonNull?
  {
    match ParseInteger(s)
    case NonNull(v) => if Int32Min <= v <= Int32Max then NonNull(v) else Null
    case Null => Null
  }

  /** `int.Parse(s)`: bad syntax is a `FormatException`, a value outside
      `int` an `OverflowException`. */
  function IntParse(s: string): (r: Result<int>)
    ensures r.Ok? <==> TryParseInt(s).NonNull?
    ensures r.Ok? ==> r.value == TryParseInt(s).value
    ensures r.Throws? ==> r.exception == (if ParseInteger(s).Null? then FormatException else OverflowException)
  {
    match ParseInteger(s)
    case Null => Throws(FormatException)
    case NonNull(v) => if Int32Min <= v <= Int32Max then Ok(v) else Throws(OverflowException)
  }

  /** Lower-casing of one character; only ASCII letters are modelled. */
  function LowerChar(c: char): char {
    if 'A' <= c <= 'Z' then (c as int - 'A' as int + 'a' as int) as char else c
  }

  /** `String.ToLower()`, restricted to ASCII. */
  function ToLower(s: string): (r: string)
    ensures |r| == |s|
    ensures forall i :: 0 <= i < |s| ==> r[i] == LowerChar(s[i])
  {
    seq(|s|, i requires 0 <= i < |s| => LowerChar(s[i]))
  }

  // Facts about the integer parser.

  /** A string made only of digits parses to its decimal value. */
  lemma {:induction false} ParseAllDigits(s: string)
    requires |s| > 0 && AllDigits(s)
    ensures ParseInteger(s) == NonNull(DigitsValue(s) as int)
  {
    assert TrimTrailingNuls(s) == s;
    assert TrimTrailingWhite(s) == s;
    assert TrimLeadingWhite(s) == s;
  }

  /** A string that parses, starts with a digit and ends with a digit is made
      only of digits: nothing can be trimmed and there is no sign. */
  lemma {:induction false} ParsedBetweenDigits(s: string)
    requires |s| > 0 && IsDigit(s[0]) && IsDigit(s[|s| - 1])
    requires ParseInteger(s).NonNull?
    ensures AllDigits(s)
    ensures ParseInteger(s) == NonNull(DigitsValue(s) as int)
  {
    assert TrimTrailingNuls(s) == s;
    assert TrimTrailingWhite(s) == s;
    assert TrimLeadingWhite(s) == s;
  }

  /** `int.Parse` of a one-character string succeeds exactly on an ASCII
      digit, with that digit's value. */
  lemma {:induction false} IntParseOneChar(c: char)
    ensures IntParse([c]).Ok? <==> IsDigit(c)
    ensures IsDigit(c) ==> IntParse([c]).value == DigitValue(c)
    ensures !IsDigit(c) ==> IntParse([c]) == Throws(FormatException)
  {
    var s := [c];
    if IsDigit(c) {
      ParseAllDigits(s);
    } else {
      var n := TrimTrailingNuls(s);
      var w := TrimTrailingWhite(n);
      var t := TrimLeadingWhite(w);
      assert |t| <= 1;
      if |t| == 1 {
        assert t == s;
        assert !AllDigits(t);
        assert t[0] == '+' || t[0] == '-' ==> |t[1..]| == 0;
      }
      assert ParseInteger(s).Null?;
    }
  }

  /** The decimal value of a four-digit string. */
  lemma DigitsValue4(s: string)
    requires |s| == 4 && AllDigits(s)
    ensures DigitsValue(s) == 1000 * DigitValue(s[0]) + 100 * DigitValue(s[1]) + 10 * DigitValue(s[2]) + DigitValue(s[3])
  {
    DigitsValue3(s[..3]);
    assert s[..3][..|s[..3]| - 1] == s[..3][..2];
  }

  /** The decimal value of a three-digit string. */
  lemma DigitsValue3(s: string)
    requires |s| == 3 && AllDigits(s)
    ensures DigitsValue(s) == 100 * DigitValue(s[0]) + 10 * DigitValue(s[1]) + DigitValue(s[2])
  {
    assert s[..2][..1] == s[..1];
    assert s[..1][..0] == [];
    assert DigitsValue(s[..1]) == DigitValue(s[0]);
    assert DigitsValue(s[..2]) == 10 * DigitValue(s[0]) + DigitValue(s[1]);
  }

  predicate AllWhite(s: string) {
    forall i :: 0 <= i < |s| ==> IsWhite(s[i])
  }

  predicate AllNuls(s: string) {
    forall i :: 0 <= i < |s| ==> s[i] == '\0'
  }

  lemma {:induction false} TrimNulsAppended(x: string, nuls: string)
    requires AllNuls(nuls)
    requires |x| == 0 || x[|x| - 1] != '\0'
    ensures TrimTrailingNuls(x + nuls) == x
  {
    if |nuls| == 0 {
      assert x + nuls == x;
    } else {
      assert (x + nuls)[..|x + nuls| - 1] == x + nuls[..|nuls| - 1];
      TrimNulsAppended(x, nuls[..|nuls| - 1]);
    }
  }

  lemma {:induction false} TrimWhiteAppended(x: string, white: string)
    requires AllWhite(white)
    requires |x| == 0 || !IsWhite(x[|x| - 1])
    ensures TrimTrailingWhite(x + white) == x
  {
    if |white| == 0 {
      assert x + white == x;
    } else {
      assert (x + white)[..|x + white| - 1] == x + white[..|white| - 1];
      TrimWhiteAppended(x, white[..|white| - 1]);
    }
  }

  lemma {:induction false} TrimWhitePrepended(white: string, x: string)
    requires AllWhite(white)
    requires |x| == 0 || !IsWhite(x[0])
    ensures TrimLeadingWhite(white + x) == x
  {
    if |white| == 0 {
      assert white + x == x;
    } else {
      assert (white + x)[1..] == white[1..] + x;
      TrimWhitePrepended(white[1..], x);
    }
  }

  /** Every string of the `NumberStyles.Integer` shape parses, to the value
      of its digits with the sign applied: leading white, an optional sign,
      the digits, trailing white, trailing NULs. */
  lemma {:induction false} ParseWellFormed(lead: string, sign: string, digits: string, trail: string, nuls: string)
    requires AllWhite(lead) && AllWhite(trail) && AllNuls(nuls)
    requires |sign| <= 1 && (|sign| == 1 ==> sign[0] == '+' || sign[0] == '-')
    requires |digits| > 0 && AllDigits(digits)
    ensures ParseInteger(lead + sign + digits + trail + nuls)
         == NonNull(if |sign| == 1 && sign[0] == '-' then -(DigitsValue(digits) as int) else DigitsValue(digits) as int)
  {
    var core := sign + digits;
    var x := lead + core;
    var y := x + trail;
    assert lead + sign + digits + trail + nuls == y + nuls;
    assert x[|x| - 1] == digits[|digits| - 1];
    assert y[|y| - 1] == if |trail| == 0 then x[|x| - 1] else trail[|trail| - 1];
    TrimNulsAppended(y, nuls);
    TrimWhiteAppended(x, trail);
    assert !IsWhite(core[0]);
    TrimWhitePrepended(lead, core);
    ParseSignDigits(sign, digits);
  }

  lemma ParseSignDigits(sign: string, digits: string)
    requires |sign| <= 1 && (|sign| == 1 ==> sign[0] == '+' || sign[0] == '-')
    requires |digits| > 0 && AllDigits(digits)
    ensures ParseSignedDigits(sign + digits)
         == NonNull(if |sign| == 1 && sign[0] == '-' then -(DigitsValue(digits) as int) else DigitsValue(digits) as int)
  {
    var core := sign + digits;
    if |sign| == 0 {
      assert core == digits;
    } else {
      assert core[0] == sign[0] && core[1..] == digits;
    }
  }

  /** The `NumberStyles.Integer` shape: leading white, at most one `+` or
      `-`, one or more ASCII digits, trailing white, trailing NULs. */
  predicate IntegerShape(lead: string, sign: string, digits: string, trail: string, nuls: string) {
    && AllWhite(lead) && AllWhite(trail) && AllNuls(nuls)
    && |sign| <= 1 && (|sign| == 1 ==> sign[0] == '+' || sign[0] == '-')
    && |digits| > 0 && AllDigits(digits)
  }

  function SignedValue(sign: string, digits: string): int
    requires AllDigits(digits)
  {
    if |sign| == 1 && sign[0] == '-' then -(DigitsValue(digits) as int) else DigitsValue(digits) as int
  }

  /** Trimming NULs keeps a prefix and drops only NULs. */
  lemma {:induction false} TrimNulsSplits(s: string)
    ensures |TrimTrailingNuls(s)| <= |s|
    ensures s[..|TrimTrailingNuls(s)|] == TrimTrailingNuls(s)
    ensures AllNuls(s[|TrimTrailingNuls(s)|..])
  {
    if |s| > 0 && s[|s| - 1] == '\0' {
      var u := s[..|s| - 1];
      TrimNulsSplits(u);
      var k := |TrimTrailingNuls(u)|;
      assert s[..k] == u[..k];
      assert s[k..] == u[k..] + [s[|s| - 1]];
    }
  }

  /** Trimming trailing white keeps a prefix and drops only white space. */
  lemma {:induction false} TrimTrailingWhiteSplits(s: string)
    ensures |TrimTrailingWhite(s)| <= |s|
    ensures s[..|TrimTrailingWhite(s)|] == TrimTrailingWhite(s)
    ensures AllWhite(s[|TrimTrailingWhite(s)|..])
  {
    if |s| > 0 && IsWhite(s[|s| - 1]) {
      var u := s[..|s| - 1];
      TrimTrailingWhiteSplits(u);
      var k := |TrimTrailingWhite(u)|;
      assert s[..k] == u[..k];
      assert s[k..] == u[k..] + [s[|s| - 1]];
    }
  }

  /** Trimming leading white keeps a suffix and drops only white space. */
  lemma {:induction false} TrimLeadingWhiteSplits(s: string)
    ensures |TrimLeadingWhite(s)| <= |s|
    ensures s[|s| - |TrimLeadingWhite(s)|..] == TrimLeadingWhite(s)
    ensures AllWhite(s[..|s| - |TrimLeadingWhite(s)|])
  {
    if |s| > 0 && IsWhite(s[0]) {
      var u := s[1..];
      TrimLeadingWhiteSplits(u);
      var k := |u| - |TrimLeadingWhite(u)|;
      assert s[|s| - |TrimLeadingWhite(u)|..] == u[k..];
      assert s[..k + 1] == [s[0]] + u[..k];
    }
  }

  /** The sign that `ParseSignedDigits` reads off the front, if any. */
  function SignPart(t: string): (r: string)
    ensures |r| <= 1 && |r| <= |t| && t[..|r|] == r
  {
    if |t| > 0 && (t[0] == '+' || t[0] == '-') then t[..1] else ""
  }

  /** A string `ParseSignedDigits` accepts is an optional sign followed by
      one or more digits, and its value is their signed value. */
  lemma SignedDigitsShape(t: string)
    requires ParseSignedDigits(t).NonNull?
    ensures |SignPart(t)| == 1 ==> SignPart(t)[0] == '+' || SignPart(t)[0] == '-'
    ensures |t[|SignPart(t)|..]| > 0 && AllDigits(t[|SignPart(t)|..])
    ensures ParseSignedDigits(t) == NonNull(SignedValue(SignPart(t), t[|SignPart(t)|..]))
  {
  }

  /** Three nested trims leave the string as the dropped front, the kept
      core and the two dropped tails. */
  lemma Splice(s: string, n: string, w: string, sign: string, digits: string)
    requires |n| <= |s| && s[..|n|] == n
    requires |w| <= |n| && n[..|w|] == w
    requires |sign + digits| <= |w| && w[|w| - |sign + digits|..] == sign + digits
    ensures s == w[..|w| - |sign + digits|] + sign + digits + n[|w|..] + s[|n|..]
  {
    var lead := w[..|w| - |sign + digits|];
    assert w == lead + (sign + digits);
    assert n == w + n[|w|..];
    assert s == n + s[|n|..];
  }

  /** A string that splits into dropped leading white, an accepted core
      and dropped trailing white and NULs has the `NumberStyles.Integer`
      shape, with the core's value. */
  lemma ShapeOfTrimmed(s: string, n: string, w: string, t: string, v: Nullable<int>)
    requires |n| <= |s| && s[..|n|] == n && AllNuls(s[|n|..])
    requires |w| <= |n| && n[..|w|] == w && AllWhite(n[|w|..])
    requires |t| <= |w| && w[|w| - |t|..] == t && AllWhite(w[..|w| - |t|])
    requires v == ParseSignedDigits(t) && v.NonNull?
    ensures exists lead, sign, digits, trail, nuls ::
              && IntegerShape(lead, sign, digits, trail, nuls)
              && s == lead + sign + digits + trail + nuls
              && v == NonNull(SignedValue(sign, digits))
  {
    SignedDigitsShape(t);
    var sign := SignPart(t);
    var digits := t[|sign|..];
    assert t == sign + digits;
    Splice(s, n, w, sign, digits);
    var lead, trail, nuls := w[..|w| - |t|], n[|w|..], s[|n|..];
    assert IntegerShape(lead, sign, digits, trail, nuls);
  }

  /** The converse of `ParseWellFormed`: every string that parses has the
      `NumberStyles.Integer` shape, and its value is the signed value of
      its digits. */
  lemma ParsedIsWellFormed(s: string)
    requires ParseInteger(s).NonNull?
    ensures exists lead, sign, digits, trail, nuls ::
              && IntegerShape(lead, sign, digits, trail, nuls)
              && s == lead + sign + digits + trail + nuls
              && ParseInteger(s) == NonNull(SignedValue(sign, digits))
  {
    var n := TrimTrailingNuls(s);
    var w := TrimTrailingWhite(n);
    TrimNulsSplits(s);
    TrimTrailingWhiteSplits(n);
    TrimLeadingWhiteSplits(w);
    ShapeOfTrimmed(s, n, w, TrimLeadingWhite(w), ParseInteger(s));
  }

  /** White space after the digits is skipped. */
  lemma {:induction false} ParseDigitsThenWhite(digits: string, white: string)
    requires |digits| > 0 && AllDigits(digits) && AllWhite(white)
    ensures ParseInteger(digits + white) == NonNull(DigitsValue(digits) as int)
  {
    var s := digits + white;
    assert s[|s| - 1] != '\0';
    assert TrimTrailingNuls(s) == s;
    TrimWhiteAppended(digits, white);
    assert TrimLeadingWhite(digits) == digits;
    assert "" + digits == digits;
    ParseSignDigits("", digits);
  }
}
