/** `System.IO.UnixFileMode` as a 12-bit mask with the mode-bit values of
    `<sys/stat.h>` (IEEE Std 1003.1), and the two switch tables the
    permission parsers share. Every multi-flag arm of those tables combines
    its flags with `&`, exactly as written in the library. */
module UnixFileModes {
  import opened DotNet

  type UnixFileMode = bv12

  const None: UnixFileMode := 0
  const OtherExecute: UnixFileMode := 0x001
  const OtherWrite: UnixFileMode := 0x002
  const OtherRead: UnixFileMode := 0x004
  const GroupExecute: UnixFileMode := 0x008
  const GroupWrite: UnixFileMode := 0x010
  const GroupRead: UnixFileMode := 0x020
  const UserExecute: UnixFileMode := 0x040
  const UserWrite: UnixFileMode := 0x080
  const UserRead: UnixFileMode := 0x100
  const StickyBit: UnixFileMode := 0x200
  const SetGroup: UnixFileMode := 0x400
  const SetUser: UnixFileMode := 0x800

  /** The only values the `&`-combined tables can produce. */
  predicate IsUserSingleton(m: UnixFileMode) {
    m == None || m == UserExecute || m == UserWrite || m == UserRead
  }

  /** At most one bit of the mask is set. */
  predicate AtMostOneBit(m: UnixFileMode) {
    m & (m - 1) == 0
  }

  /** What the `&`-combined value table amounts to: 111, 222 and 444 give
      their user flag, every other value gives `None`. */
  function NumericCollapse(v: int): UnixFileMode {
    if v == 111 then UserExecute
    else if v == 222 then UserWrite
    else if v == 444 then UserRead
    else None
  }

  /** What the `&`-combined pattern table amounts to: the three
      single-permission patterns give their user flag, every other pattern
      gives `None`. */
  function SymbolicCollapse(p: string): UnixFileMode {
    if p == "---x--x--x" then UserExecute
    else if p == "--w--w--w-" then UserWrite
    else if p == "-r--r--r--" then UserRead
    else None
  }

  /** The `switch` on the parsed integer in `ParseNumericValue`; `Null`
      stands for the `_` arm. */
  function NumericValueMode(v: int): (r: Nullable<UnixFileMode>)
    ensures r.NonNull? <==> v in {0, 111, 222, 333, 444, 555, 666, 700, 740, 770, 777}
    ensures r.NonNull? ==> IsUserSingleton(r.value) && AtMostOneBit(r.value)
    ensures r.NonNull? ==> r.value == NumericCollapse(v)
  {
    match v
    case 0 => NonNull(None)
    case 111 => NonNull(UserExecute)
    case 222 => NonNull(UserWrite)
    case 333 => NonNull(UserWrite & UserExecute)
    case 444 => NonNull(UserRead)
    case 555 => NonNull(UserRead & UserExecute)
    case 666 => NonNull(UserRead & UserWrite)
    case 700 => NonNull(UserRead & UserWrite & UserExecute)
    case 740 => NonNull(UserExecute & UserWrite & UserRead & GroupRead)
    case 770 => NonNull(UserRead & UserWrite & UserExecute & GroupRead & GroupWrite & GroupExecute)
    case 777 => NonNull(UserRead & UserWrite & UserExecute & GroupRead & GroupWrite & GroupExecute &
                        OtherRead & OtherWrite & OtherExecute)
    case _ => Null
  }

  /** The `switch` on the (lower-cased) pattern in `ParseSymbolicValue` and
      `ParseSymbolicNotation`; `Null` stands for the `_` arm. */
  function SymbolicPatternMode(p: string): (r: Nullable<UnixFileMode>)
    ensures r.NonNull? ==> IsUserSingleton(r.value) && AtMostOneBit(r.value)
    ensures r.NonNull? ==> r.value == SymbolicCollapse(p)
  {
    match p
    case "----------" => NonNull(None)
    case "---x--x--x" => NonNull(UserExecute)
    case "--w--w--w-" => NonNull(UserWrite)
    case "--wx-wx-wx" => NonNull(UserWrite & UserExecute)
    case "-r--r--r--" => NonNull(UserRead)
    case "-r-xr-xr-x" => NonNull(UserRead & UserExecute)
    case "-rw-rw-rw-" => NonNull(UserRead & UserWrite)
    case "-rwx------" => NonNull(UserRead & UserWrite & UserExecute)
    case "-rwxr-----" => NonNull(UserExecute & UserWrite & UserRead & GroupRead)
    case "-rwxrwx---" => NonNull(UserRead & UserWrite & UserExecute & GroupRead & GroupWrite & GroupExecute)
    case "-rwxrwxrwx" => NonNull(UserRead & UserWrite & UserExecute & GroupRead & GroupWrite & GroupExecute &
                                OtherRead & OtherWrite & OtherExecute)
    case _ => Null
  }
}
