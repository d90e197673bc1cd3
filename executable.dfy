/** `IsExecutableExtensions`: whether a path's extension marks an executable
    on the platform the program runs on. */
module ExecutableExtensions {

  /** The answers of the runtime's operating-system queries, in the order
      `IsExecutableExtension` asks them. More than one may hold. */
  datatype Platform = Platform(windows: bool, linux: bool, osx: bool, freeBSD: bool, android: bool, ios: bool)

  const OnWindows := Platform(true, false, false, false, false, false)
  const OnLinux := Platform(false, true, false, false, false, false)
  const OnOSX := Platform(false, false, true, false, false, false)
  const OnFreeBSD := Platform(false, false, false, true, false, false)
  const OnAndroid := Platform(false, false, false, false, true, false)
  const OnIOS := Platform(false, false, false, false, false, true)
  const Elsewhere := Platform(false, false, false, false, false, false)

  // `Path.GetExtension`.

  /** A directory separator: `'\\'` and `'/'` on Windows, `'/'` elsewhere. */
  predicate IsSeparator(c: char, p: Platform) {
    c == '/' || (p.windows && c == '\\')
  }

  /** The index of the last `'.'` at or before `i` with no separator after
      it, or -1. */
  function LastDot(path: string, i: int, p: Platform): (r: int)
    requires -1 <= i < |path|
    ensures -1 <= r <= i
    ensures r >= 0 ==> path[r] == '.'
    ensures r >= 0 ==> forall k | r < k <= i :: path[k] != '.' && !IsSeparator(path[k], p)
    ensures r == -1 ==> forall k | 0 <= k <= i :: path[k] == '.' ==> exists j | k < j <= i :: IsSeparator(path[j], p)
    decreases i + 1
  {
    if i < 0 then -1
    else if path[i] == '.' then i
    else if IsSeparator(path[i], p) then -1
    else LastDot(path, i - 1, p)
  }

  /** `Path.GetExtension`: from the last `'.'` of the file name to the end,
      or empty when there is none or it ends the path. */
  function GetExtension(path: string, p: Platform): (r: string)
    ensures r == [] || (2 <= |r| <= |path| && r[0] == '.' && r == path[|path| - |r|..])
    ensures forall k | 1 <= k < |r| :: r[k] != '.' && !IsSeparator(r[k], p)
  {
    var d := LastDot(path, |path| - 1, p);
    if d < 0 || d == |path| - 1 then [] else path[d..]
  }

  // The per-platform switches.

  predicate WindowsSwitch(ext: string) {
    match ext
    case ".exe" | ".msi" | ".appx" | ".com" | ".bat" | ".cmd" | ".jar" => true
    case _ => false
  }

  predicate LinuxSwitch(ext: string) {
    match ext
    case ".appimage" | ".deb" | ".rpm" | ".so" | ".o" | ".out" | ".bin" | ".elf" | ".mod" | ".axf"
       | ".ko" | ".prx" | ".puff" | ".jar" | ".sh" => true
    case _ => false
  }

  predicate OSXSwitch(ext: string) {
    match ext
    case ".kext" | ".pkg" | ".app" | ".so" | ".o" | ".out" | ".bin" | ".elf" | ".mod" | ".axf"
       | ".ko" | ".prx" | ".puff" | ".jar" | ".sh" => true
    case _ => false
  }

  predicate FreeBSDSwitch(ext: string) {
    match ext
    case ".appimage" | ".so" | ".o" | ".out" | ".bin" | ".elf" | ".mod" | ".axf"
       | ".ko" | ".prx" | ".puff" | ".jar" | ".sh" => true
    case _ => false
  }

  predicate AndroidSwitch(ext: string) {
    match ext
    case ".apk" => true
    case ".aab" => false
    case ".so" | ".o" | ".out" | ".bin" | ".elf" | ".mod" | ".axf" | ".ko" | ".prx" | ".puff"
       | ".jar" | ".sh" => true
    case _ => false
  }

  predicate IOSSwitch(ext: string) {
    match ext
    case ".ipa" => true
    case _ => false
  }

  /** `IsExecutableExtension`: the first platform query that holds picks the
      switch; when none holds the answer stays `false`. */
  predicate IsExecutableExtension(path: string, p: Platform)
    ensures IsExecutableExtension(path, p) ==>
              |GetExtension(path, p)| >= 2 && (p.windows || p.linux || p.osx || p.freeBSD || p.android || p.ios)
  {
    var ext := GetExtension(path, p);
    if p.windows then WindowsSwitch(ext)
    else if p.linux then LinuxSwitch(ext)
    else if p.osx then OSXSwitch(ext)
    else if p.freeBSD then FreeBSDSwitch(ext)
    else if p.android then AndroidSwitch(ext)
    else if p.ios then IOSSwitch(ext)
    else false
  }

  // Reference sets of executable extensions.

  /** Binary and script formats every Unix-like branch accepts. */
  const UnixBinaries: set<string> :=
    {".so", ".o", ".out", ".bin", ".elf", ".mod", ".axf", ".ko", ".prx", ".puff", ".jar", ".sh"}

  const WindowsExecutables: set<string> := {".exe", ".msi", ".appx", ".com", ".bat", ".cmd", ".jar"}

  /** The executable extensions of the platform the first holding query
      names. */
  function Executables(p: Platform): (r: set<string>)
    ensures "" !in r
  {
    if p.windows then WindowsExecutables
    else if p.linux then UnixBinaries + {".appimage", ".deb", ".rpm"}
    else if p.osx then UnixBinaries + {".kext", ".pkg", ".app"}
    else if p.freeBSD then UnixBinaries + {".appimage"}
    else if p.android then UnixBinaries + {".apk"}
    else if p.ios then {".ipa"}
    else {}
  }

  // Properties.

  /** The switches accept exactly the reference sets. */
  lemma IsExecutableExtensionMeaning(path: string, p: Platform)
    ensures IsExecutableExtension(path, p) <==> GetExtension(path, p) in Executables(p)
  {
  }

  /** `.jar` is executable on every platform branch except iOS. */
  lemma JarExecutable(path: string, p: Platform)
    requires GetExtension(path, p) == ".jar"
    ensures IsExecutableExtension(path, p) <==> p.windows || p.linux || p.osx || p.freeBSD || p.android
  {
    IsExecutableExtensionMeaning(path, p);
  }

  /** On Android `.apk` is executable and `.aab` is not; on iOS only `.ipa`
      is. */
  lemma MobilePlatforms(path: string)
    ensures GetExtension(path, OnAndroid) == ".apk" ==> IsExecutableExtension(path, OnAndroid)
    ensures GetExtension(path, OnAndroid) == ".aab" ==> !IsExecutableExtension(path, OnAndroid)
    ensures IsExecutableExtension(path, OnIOS) <==> GetExtension(path, OnIOS) == ".ipa"
  {
    IsExecutableExtensionMeaning(path, OnAndroid);
    IsExecutableExtensionMeaning(path, OnIOS);
  }

  /** A path without an extension is never executable, and nothing is
      executable when no query holds. */
  lemma NoExtensionNeverExecutable(path: string, p: Platform)
    ensures GetExtension(path, p) == [] ==> !IsExecutableExtension(path, p)
    ensures !IsExecutableExtension(path, Elsewhere)
  {
    IsExecutableExtensionMeaning(path, p);
  }

  /** Queries are asked in order: a runtime that answers both Linux and
      Android gets the Linux switch, which has no `.apk`. */
  lemma LinuxQueryComesFirst(path: string)
    requires GetExtension(path, Platform(false, true, false, false, true, false)) == ".apk"
    ensures !IsExecutableExtension(path, Platform(false, true, false, false, true, false))
  {
    IsExecutableExtensionMeaning(path, Platform(false, true, false, false, true, false));
  }

  /** The scan stops at the first `'.'` from the end that no separator
      follows. */
  lemma {:induction false} LastDotFinds(path: string, d: int, i: int, p: Platform)
    requires 0 <= d <= i < |path| && path[d] == '.'
    requires forall k | d < k <= i :: path[k] != '.' && !IsSeparator(path[k], p)
    ensures LastDot(path, i, p) == d
    decreases i - d
  {
    if i > d {
      LastDotFinds(path, d, i - 1, p);
    }
  }

  /** The scan gives up at a separator that no `'.'` follows. */
  lemma {:induction false} LastDotStops(path: string, j: int, i: int, p: Platform)
    requires 0 <= j <= i < |path| && IsSeparator(path[j], p)
    requires forall k | j < k <= i :: path[k] != '.' && !IsSeparator(path[k], p)
    ensures LastDot(path, i, p) == -1
    decreases i - j
  {
    if i > j {
      LastDotStops(path, j, i - 1, p);
    }
  }

  /** A dot and at least one more character, none of them a dot or a
      separator, at the end of a path form its extension. */
  lemma ExtensionOfSuffix(name: string, ext: string, p: Platform)
    requires |ext| >= 2 && ext[0] == '.'
    requires forall k | 1 <= k < |ext| :: ext[k] != '.' && !IsSeparator(ext[k], p)
    ensures GetExtension(name + ext, p) == ext
  {
    var path := name + ext;
    LastDotFinds(path, |name|, |path| - 1, p);
    assert path[|name|..] == ext;
  }

  /** A file name without a dot has no extension, whatever dots the
      directory part holds. */
  lemma NoExtensionAfterSeparator(dir: string, name: string, p: Platform)
    requires |dir| > 0 && IsSeparator(dir[|dir| - 1], p)
    requires forall k | 0 <= k < |name| :: name[k] != '.' && !IsSeparator(name[k], p)
    ensures GetExtension(dir + name, p) == []
  {
    var path := dir + name;
    LastDotStops(path, |dir| - 1, |path| - 1, p);
  }

  /** A trailing dot gives no extension. */
  lemma TrailingDotNoExtension(path: string, p: Platform)
    requires |path| > 0 && path[|path| - 1] == '.'
    ensures GetExtension(path, p) == []
  {
  }

  /** The comparison is case-sensitive: `setup.exe` is executable on
      Windows, `setup.EXE` is not. */
  lemma WindowsIsCaseSensitive()
    ensures IsExecutableExtension("setup.exe", OnWindows)
    ensures !IsExecutableExtension("setup.EXE", OnWindows)
  {
    ExtensionOfSuffix("setup", ".exe", OnWindows);
    ExtensionOfSuffix("setup", ".EXE", OnWindows);
    assert "setup" + ".exe" == "setup.exe";
    assert "setup" + ".EXE" == "setup.EXE";
  }
}
