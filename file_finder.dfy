/** `FileFinder.IsAFile`: a string names a file when the file exists or when
    a dot sits close enough to its end to start an extension. A .NET string
    is a sequence of UTF-16 code units, and `Length` and the indexer count
    code units, so the path is one here too. */
module FileFinder {

  /** A UTF-16 code unit, the element of a .NET `string`. */
  newtype CodeUnit = x: int | 0 <= x < 0x1_0000

  const Dot: CodeUnit := 0x2E

  /** `IsAFile`, with the answer of `File.Exists` passed in as `fileExists`.
      A file that exists is one; otherwise only a dot somewhere in the path
      can make it one. */
  predicate IsAFile(path: seq<CodeUnit>, fileExists: bool)
    ensures fileExists ==> IsAFile(path, fileExists)
    ensures IsAFile(path, fileExists) ==> fileExists || Dot in path
  {
    if fileExists then true
    else if |path| > 1 then
      if |path| - 4 >= 0 && |path| - 4 < |path| && path[|path| - 4] == Dot then true
      else if |path| - 3 >= 0 && |path| - 3 < |path| && (path[|path| - 3] == Dot || path[|path| - 2] == Dot) then true
      else if |path| - 2 >= 0 && |path| - 2 < |path| && path[|path| - 2] == Dot then true
      else fileExists
    else fileExists
  }

  /** A dot among the last four code units that is not the final one: the
      start of a one- to three-unit extension. */
  predicate HasShortExtension(path: seq<CodeUnit>) {
    exists i | 0 <= i < |path| :: |path| - 4 <= i <= |path| - 2 && path[i] == Dot
  }

  // UTF-16, to state examples on Dafny strings, whose elements are Unicode
  // scalar values.

  /** The UTF-16 encoding of one scalar value: itself below U+10000, a
      surrogate pair above. No surrogate is a dot. */
  function EncodeChar(c: char): (r: seq<CodeUnit>)
    ensures |r| == if c as int < 0x1_0000 then 1 else 2
    ensures c as int < 0x1_0000 ==> r == [c as int as CodeUnit]
    ensures c as int >= 0x1_0000 ==>
      && 0xD800 <= r[0] as int < 0xDC00 && 0xDC00 <= r[1] as int < 0xE000
      && c as int == 0x1_0000 + (r[0] as int - 0xD800) * 0x400 + (r[1] as int - 0xDC00)
    ensures Dot in r <==> c == '.'
  {
    if c as int < 0x1_0000 then [c as int as CodeUnit]
    else
      var v := c as int - 0x1_0000;
      [(0xD800 + v / 0x400) as CodeUnit, (0xDC00 + v % 0x400) as CodeUnit]
  }

  /** The UTF-16 encoding of a string. */
  function Utf16(s: string): (r: seq<CodeUnit>)
    ensures |r| >= |s|
    ensures Dot in r <==> '.' in s
  {
    if s == [] then [] else EncodeChar(s[0]) + Utf16(s[1..])
  }

  // Properties.

  /** `IsAFile` holds exactly when the file exists or the name has a short
      extension. */
  lemma IsAFileMeaning(path: seq<CodeUnit>, fileExists: bool)
    ensures IsAFile(path, fileExists) <==> fileExists || HasShortExtension(path)
  {
    if HasShortExtension(path) && !fileExists {
      var i :| 0 <= i < |path| && |path| - 4 <= i <= |path| - 2 && path[i] == Dot;
      assert i == |path| - 4 || i == |path| - 3 || i == |path| - 2;
    }
  }

  /** Without the file, an extension of four or more code units is not
      enough. */
  lemma LongExtensionNotAFile(name: seq<CodeUnit>, ext: seq<CodeUnit>)
    requires |ext| >= 4 && Dot !in ext
    ensures !IsAFile(name + [Dot] + ext, false)
  {
    var p := name + [Dot] + ext;
    IsAFileMeaning(p, false);
    forall i | 0 <= i < |p| && |p| - 4 <= i <= |p| - 2
      ensures p[i] != Dot
    {
      assert p[i] == ext[i - |name| - 1];
    }
  }

  /** Without the file, a dot that ends a name with no other dot, or a name
      of at most one code unit, is not enough. */
  lemma TrailingDotNotAFile(name: seq<CodeUnit>, short: seq<CodeUnit>)
    requires Dot !in name
    requires |short| <= 1
    ensures !IsAFile(name + [Dot], false)
    ensures !IsAFile(short, false)
  {
    var p := name + [Dot];
    IsAFileMeaning(p, false);
    forall i | 0 <= i < |p| && |p| - 4 <= i <= |p| - 2
      ensures p[i] != Dot
    {
      assert p[i] == name[i];
    }
  }

  /** A name with a one- to three-unit extension counts as a file whether
      or not it exists; `".a"` is one. */
  lemma ShortExtensionIsAFile(name: seq<CodeUnit>, ext: seq<CodeUnit>, fileExists: bool)
    requires 1 <= |ext| <= 3
    ensures IsAFile(name + [Dot] + ext, fileExists)
    ensures IsAFile(Utf16(".a"), fileExists)
  {
    var p := name + [Dot] + ext;
    assert p[|name|] == Dot;
    IsAFileMeaning(p, fileExists);
    assert Utf16(".a") == [Dot, 0x61];
  }

  /** Positions count code units: two characters outside the Basic
      Multilingual Plane after a dot take four units, so `"a.😀😀"` is not
      a file unless it exists, although the dot is the third character from
      the end. */
  lemma SupplementaryCharactersCountTwice()
    ensures |Utf16("a.\U{1F600}\U{1F600}")| == 6
    ensures !IsAFile(Utf16("a.\U{1F600}\U{1F600}"), false)
  {
    var e := EncodeChar('\U{1F600}');
    assert Utf16("a.\U{1F600}\U{1F600}") == [0x61 as CodeUnit, Dot] + e + e;
    LongExtensionNotAFile([0x61], e + e);
  }
}
