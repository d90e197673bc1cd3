# Resyslib.IO permission notation, executable detection and file model, in Dafny

This project models the pure core of Resyslib.IO, a .NET library of file-system helpers:

- recognising Unix file permissions written in numeric notation (`"0740"`) or symbolic notation (`"-rwxr-----"`);
- parsing those notations into a `UnixFileMode` bit mask, in two current parsers (`UnixFilePermissionParser` and `UnixFileModeParser`) and one older one;
- converting between the two notations (`UnixFilePermissionConverter`);
- deciding whether a path's extension marks an executable on the running platform (`IsExecutableExtension`);
- deciding whether a string names a file (`FileFinder.IsAFile`);
- the equality, hash code and string form of the core `FileModel` record.

Every file of this core is pure, so the model is datatypes, functions and lemmas.

Modules:

- `DotNet` holds the .NET behaviour the core relies on:
  - `int.TryParse` and `int.Parse`, with their leniency: leading and trailing white space, trailing NULs, one sign;
  - exceptions as a `Result`, and `try`/`catch` as `Catch`;
  - ASCII `ToLower`.
- `UnixFileModes` holds:
  - `UnixFileMode` as a 12-bit vector with the mode-bit values of `<sys/stat.h>`;
  - the two value and pattern tables the parsers share.
- The other modules follow the source files one to one.

The library combines permission flags with `&` where `|` is meant. The model does the same. Its contracts state what the tables then amount to:
- every multi-flag entry collapses to `None`;
- only `111`, `222` and `444` (and their symbolic patterns) give a non-empty mode;
- `UnixFileModeParser.ParseNumericNotation` gives `None` for every input it accepts.

The model follows the code where its behaviour may surprise a reader:
- Numeric detection accepts only four-character strings, and `770` is not among its values.
- Symbolic detection compares case-sensitively, so the lower-casing before the table lookup has no effect.
- `ToNumericNotation` emits four characters, which `ToSymbolicNotation` refuses.

In two places the library's own doc comments promise something the code does not do:
- `UnixFilePermissionParser.TryParse` (src/Resyslib.IO/Permissions/UnixFilePermissionParser.cs:138-143) promises `false` and a null mode when the notation does not parse. For a string it cannot classify, the code returns `true` with `UserRead & UserWrite`, which is `None`.
- `UnixFileModeParser.ParseNumericNotation` (src/Resyslib.IO/Permissions/UnixFileModeParser.cs:31) promises an `ArgumentException` for an invalid notation. A detected string with a sign, white space or NUL at one end makes the code's `int.Parse` throw a `FormatException` instead.

## Model

| member | source | states |
|---|---|---|
| NotationDetection.IsNumericNotation | src/Resyslib.IO.Core/Extensions/UnixFilePermissionNotationDetectionExtensions.cs:20-44 | numeric detection only ever accepts four-character strings |
| NotationDetection.IsSymbolicNotation | src/Resyslib.IO.Core/Extensions/UnixFilePermissionNotationDetectionExtensions.cs:51-86 | symbolic detection holds exactly for the eleven patterns, all of length 10 |
| NotationDetection.DetectionLengths | src/Resyslib.IO.Core/Extensions/UnixFilePermissionNotationDetectionExtensions.cs:22-54 | wrong lengths are rejected, and no string is both numeric and symbolic |
| NotationDetection.NumericDetectionOnDigits | src/Resyslib.IO.Core/Extensions/UnixFilePermissionNotationDetectionExtensions.cs:20-44 | on four ASCII digits, numeric detection holds iff the first is `'0'` and the other three spell a listed value |
| NotationDetection.NumericDetectionRejects0770 | src/Resyslib.IO.Core/Extensions/UnixFilePermissionNotationDetectionExtensions.cs:28 | `"0770"` is not numeric notation, since 770 is missing from the value list |
| NotationDetection.NumericDetectionAcceptsLeadingSignOrWhite | src/Resyslib.IO.Core/Extensions/UnixFilePermissionNotationDetectionExtensions.cs:22 | a white-space or `'+'` character (or `'-'` before `000`) followed by three digits of a listed value is accepted, because `int.TryParse` is lenient |
| NotationDetection.NumericDetectionAcceptsTrailingWhite | src/Resyslib.IO.Core/Extensions/UnixFilePermissionNotationDetectionExtensions.cs:22 | three digits of a listed value followed by white space are accepted |
| NotationDetection.SymbolicIsLowerCase | src/Resyslib.IO.Core/Extensions/UnixFilePermissionNotationDetectionExtensions.cs:57-71 | every accepted symbolic string is made of `-rwx` and is its own lower-case form |
| NotationDetection.SymbolicDetectionIsCaseSensitive | src/Resyslib.IO.Core/Extensions/UnixFilePermissionNotationDetectionExtensions.cs:57-71 | `"-rwxrwxrwx"` is accepted and `"-RWXRWXRWX"` is not |
| DotNet.TryParseInt | src/Resyslib.IO.Core/Extensions/UnixFilePermissionNotationDetectionExtensions.cs:22 | `int.TryParse` succeeds exactly when the trimmed, signed digits denote a 32-bit value, and gives that value |
| DotNet.ParseWellFormed | src/Resyslib.IO.Core/Extensions/UnixFilePermissionNotationDetectionExtensions.cs:22 | leading white space, an optional sign, digits, trailing white space and trailing NULs parse to the signed value of the digits |
| DotNet.ParsedIsWellFormed | src/Resyslib.IO.Core/Extensions/UnixFilePermissionNotationDetectionExtensions.cs:22 | conversely, every string that parses is leading white space, an optional sign, one or more digits, trailing white space and trailing NULs, and its value is the signed value of those digits |
| DotNet.IntParse | src/Resyslib.IO/Permissions/UnixFileModeParser.cs:41-43 | `int.Parse` succeeds exactly when `int.TryParse` does; otherwise it throws `FormatException` for bad syntax and `OverflowException` for an out-of-range value |
| DotNet.IntParseOneChar | src/Resyslib.IO/Permissions/UnixFileModeParser.cs:41-43 | `int.Parse` of one character succeeds exactly on an ASCII digit, giving its value, and otherwise throws `FormatException` |
| DotNet.ToLower | src/Resyslib.IO/Permissions/UnixFilePermissionParser.cs:93 | lower-casing keeps the length and maps each character on its own |
| DotNet.Catch | src/Resyslib.IO/Permissions/UnixFilePermissionParser.cs:68-80 | a `try`/`catch` returns `true` with the value exactly when the call returns, and `false` with null when it throws |
| UnixFileModes.NumericValueMode | src/Resyslib.IO/Permissions/UnixFilePermissionParser.cs:38-56 | the value switch has an entry exactly for the eleven listed values (770 included), and each entry is a single user flag or `None`: 111, 222 and 444 give their user flag, every other value `None` |
| UnixFileModes.SymbolicPatternMode | src/Resyslib.IO/Permissions/UnixFilePermissionParser.cs:93-111 | each pattern entry is a single user flag or `None`: the three one-permission patterns give their user flag, all others `None` |
| PermissionParser.ParseNumericValue | src/Resyslib.IO/Permissions/UnixFilePermissionParser.cs:33-60 | succeeds exactly on numeric notation, with the collapsed value of the parsed integer; otherwise throws `ArgumentException` with the symbolic-notation message, the numeric-notation arm being unreachable |
| PermissionParser.TryParseNumericValue | src/Resyslib.IO/Permissions/UnixFilePermissionParser.cs:68-80 | `true` with the parsed mode exactly on numeric notation, `false` with null otherwise |
| PermissionParser.ParseSymbolicValue | src/Resyslib.IO/Permissions/UnixFilePermissionParser.cs:89-115 | succeeds exactly on symbolic notation with the collapsed pattern value; otherwise throws with the symbolic-notation message |
| PermissionParser.TryParseSymbolicValue | src/Resyslib.IO/Permissions/UnixFilePermissionParser.cs:124-136 | `true` with the collapsed value exactly on symbolic notation, `false` with null otherwise |
| PermissionParser.TryParse | src/Resyslib.IO/Permissions/UnixFilePermissionParser.cs:144-171 | always `true` with a single user flag or `None`; the numeric or symbolic result when detected, `None` when neither |
| PermissionParser.ParseNumericValueRejectsThreeDigits | src/Resyslib.IO/Permissions/UnixFilePermissionParser.cs:35-59 | every three-character string, `"740"` included, throws with the symbolic-notation message |
| PermissionParser.ParseSymbolicValueCollapses | src/Resyslib.IO/Permissions/UnixFilePermissionParser.cs:93-111 | `"-rwxrwxrwx"` and `"-rwxr-----"` parse to `None`, and `"-r--r--r--"` to `UserRead` alone |
| FileModeParser.UserStep | src/Resyslib.IO/Permissions/UnixFileModeParser.cs:45-56 | the user switch has an entry exactly for 0 to 7, each within the user bits (no group, other or special bit) |
| FileModeParser.GroupStep | src/Resyslib.IO/Permissions/UnixFileModeParser.cs:58-69 | the group switch has an entry exactly for 0 to 7, each within the group bits and within the running value |
| FileModeParser.OthersStep | src/Resyslib.IO/Permissions/UnixFileModeParser.cs:71-82 | the others switch has an entry exactly for 0 to 7, each within the other bits and within the running value |
| FileModeParser.DigitStepsOutcome | src/Resyslib.IO/Permissions/UnixFileModeParser.cs:41-82 | the three digit steps succeed exactly on three octal digits; a non-digit throws `FormatException`, an `8` or `9` throws a message-less `ArgumentException` |
| FileModeParser.ParseNumericNotation | src/Resyslib.IO/Permissions/UnixFileModeParser.cs:32-85 | every successful parse gives `None`, and a string that is not numeric notation throws `ArgumentException` with the symbolic-notation message |
| FileModeParser.ParseNumericNotationAccepts | src/Resyslib.IO/Permissions/UnixFileModeParser.cs:32-85 | parsing succeeds iff the input is `'0'` followed by the three digits of a listed value, and then gives `None` |
| FileModeParser.NoLeadingZeroFails | src/Resyslib.IO/Permissions/UnixFileModeParser.cs:34-43 | a detected string not starting with `'0'` has a non-digit at its first or last position, so it cannot parse digit by digit |
| FileModeParser.ParseNumericNotationFailures | src/Resyslib.IO/Permissions/UnixFileModeParser.cs:34-82 | a failed parse throws either the detection `ArgumentException` or `FormatException`; the message-less `_` arms are unreachable |
| FileModeParser.LeadingSignOrWhiteRejected | src/Resyslib.IO/Permissions/UnixFileModeParser.cs:34-41 | a leading sign or white space passes detection but makes the parse throw `FormatException`, and `TryParse` return `false` |
| FileModeParser.TrailingWhiteRejected | src/Resyslib.IO/Permissions/UnixFileModeParser.cs:34-43 | trailing white space passes detection but makes the parse throw `FormatException`, and `TryParse` return `false` |
| FileModeParser.ParseSymbolicNotation | src/Resyslib.IO/Permissions/UnixFileModeParser.cs:93-118 | succeeds exactly on symbolic notation with the collapsed pattern value, which has at most one bit; otherwise throws with the symbolic-notation message |
| FileModeParser.ParseSymbolicAgrees | src/Resyslib.IO/Permissions/UnixFileModeParser.cs:93-116 | this symbolic parser and `UnixFilePermissionParser.ParseSymbolicValue` give the same result on every string |
| FileModeParser.TryParseSymbolicNotation | src/Resyslib.IO/Permissions/UnixFileModeParser.cs:126-138 | `true` with the collapsed value exactly on symbolic notation, `false` with null otherwise |
| FileModeParser.TryParse | src/Resyslib.IO/Permissions/UnixFileModeParser.cs:146-174 | symbolic notation gives `true` with the collapsed pattern value, a successful numeric parse gives `None`, a string of neither notation gives `false` and null, and every `false` carries null |
| FileModeParser.TryParseAccepts | src/Resyslib.IO/Permissions/UnixFileModeParser.cs:146-174 | `TryParse` succeeds exactly on symbolic notation or on `'0'` and three digits of a listed value, giving the collapsed pattern value or `None` |
| PermissionConverter.NumericTable | src/Resyslib.IO/Permissions/UnixFilePermissionConverter.cs:31-45 | the symbolic-to-octal switch has an entry exactly for the eleven patterns |
| PermissionConverter.ToNumericNotation | src/Resyslib.IO/Permissions/UnixFilePermissionConverter.cs:27-49 | succeeds exactly on symbolic notation; otherwise throws with the symbolic-notation message |
| PermissionConverter.SymbolicTable | src/Resyslib.IO/Permissions/UnixFilePermissionConverter.cs:61-75 | the octal-to-symbolic switch has an entry exactly for the eleven values, 770 included |
| PermissionConverter.ToSymbolicNotation | src/Resyslib.IO/Permissions/UnixFilePermissionConverter.cs:57-79 | succeeds exactly on three characters that parse to a listed value; an unlisted value throws with the symbolic-notation message, anything else with the numeric-notation message |
| PermissionConverter.SymbolicTableMeaning | src/Resyslib.IO/Permissions/UnixFilePermissionConverter.cs:61-75 | each entry is the symbolic notation built from the read, write and execute bits of the value's three octal digits |
| PermissionConverter.SymbolicTableInPatterns | src/Resyslib.IO/Permissions/UnixFilePermissionConverter.cs:61-75 | each entry is one of the patterns symbolic detection accepts |
| PermissionConverter.NumericTableMeaning | src/Resyslib.IO/Permissions/UnixFilePermissionConverter.cs:31-45 | each entry is `'0'` and three octal digits of a listed value, whose bits spell the pattern |
| PermissionConverter.ToSymbolicNotationMeaning | src/Resyslib.IO/Permissions/UnixFilePermissionConverter.cs:57-79 | the result is the symbolic notation of the parsed value's octal digits |
| PermissionConverter.ToNumericNotationMeaning | src/Resyslib.IO/Permissions/UnixFilePermissionConverter.cs:27-49 | the result is `'0'` and the octal digits whose bits the symbolic notation shows |
| PermissionConverter.NumericRoundTrip | src/Resyslib.IO/Permissions/UnixFilePermissionConverter.cs:27-79 | converting the last three digits of `ToNumericNotation` back gives the original; the whole four-character result is refused with the numeric-notation message |
| PermissionConverter.SymbolicRoundTrip | src/Resyslib.IO/Permissions/UnixFilePermissionConverter.cs:27-79 | converting a symbolic result back gives `'0'` and the three digits of the parsed value |
| PermissionConverter.SymbolicRoundTripOnDigits | src/Resyslib.IO/Permissions/UnixFilePermissionConverter.cs:27-79 | on three ASCII digits the round trip gives the input behind a `'0'` |
| PermissionConverter.RepeatedDigit | src/Resyslib.IO/Permissions/UnixFilePermissionConverter.cs:59-75 | a repeated octal digit `ddd` converts to three identical triads, each that digit's bits |
| PermissionConverter.ConverterAndDetectionDisagree | src/Resyslib.IO/Permissions/UnixFilePermissionConverter.cs:27-79 | `"-rwxrwx---"` converts to `"0770"`, which numeric detection rejects; `"0740"` is refused with the numeric-notation message |
| PermissionConverter.ToSymbolicNotationAcceptsSign | src/Resyslib.IO/Permissions/UnixFilePermissionConverter.cs:59 | `"+00"` and `"-00"` convert like `"000"`, because `int.TryParse` accepts a sign |
| LegacyPermissionParser.ParseNumericValue | AlastairLundy.Extensions.IO/AlastairLundy.Extensions.IO/Permissions/UnixFilePermissionParser.cs:26-52 | succeeds exactly on the inline numeric detection, with the collapsed value; otherwise throws with the symbolic-notation message |
| LegacyPermissionParser.TryParseNumericValue | AlastairLundy.Extensions.IO/AlastairLundy.Extensions.IO/Permissions/UnixFilePermissionParser.cs:60-72 | `true` with the collapsed value exactly on numeric notation, `false` with null otherwise |
| LegacyPermissionParser.ParseSymbolicValue | AlastairLundy.Extensions.IO/AlastairLundy.Extensions.IO/Permissions/UnixFilePermissionParser.cs:80-106 | succeeds exactly on the inline symbolic detection with the collapsed pattern value; otherwise throws with the symbolic-notation message |
| LegacyPermissionParser.TryParseSymbolicValue | AlastairLundy.Extensions.IO/AlastairLundy.Extensions.IO/Permissions/UnixFilePermissionParser.cs:114-126 | `true` with the collapsed value exactly on symbolic notation, `false` with null otherwise |
| LegacyPermissionParser.TryParse | AlastairLundy.Extensions.IO/AlastairLundy.Extensions.IO/Permissions/UnixFilePermissionParser.cs:135-162 | always `true`, with a single user flag or `None` |
| LegacyPermissionParser.IsNumericNotation | AlastairLundy.Extensions.IO/AlastairLundy.Extensions.IO/Permissions/UnixFilePermissionParser.cs:169-194 | the inline numeric detection only accepts four characters that `int.TryParse` reads |
| LegacyPermissionParser.IsSymbolicNotation | AlastairLundy.Extensions.IO/AlastairLundy.Extensions.IO/Permissions/UnixFilePermissionParser.cs:201-237 | the inline symbolic detection only accepts ten characters starting with `'-'` |
| LegacyPermissionParser.NumericDetectionAgrees | AlastairLundy.Extensions.IO/AlastairLundy.Extensions.IO/Permissions/UnixFilePermissionParser.cs:169-194 | the inline numeric detection equals the shared one on every string |
| LegacyPermissionParser.SymbolicDetectionAgrees | AlastairLundy.Extensions.IO/AlastairLundy.Extensions.IO/Permissions/UnixFilePermissionParser.cs:201-237 | the inline symbolic detection equals the shared one on every string |
| LegacyPermissionParser.ParsersAgree | AlastairLundy.Extensions.IO/AlastairLundy.Extensions.IO/Permissions/UnixFilePermissionParser.cs:26-162 | the older parser gives the same result as the current one, exceptions included, on every string |
| ExecutableExtensions.GetExtension | src/Resyslib.IO.Core/Extensions/IsExecutableExtensions.cs:33 | the extension is empty or a dot, at least one more character and no further dot or separator, ending the path |
| ExecutableExtensions.ExtensionOfSuffix | src/Resyslib.IO.Core/Extensions/IsExecutableExtensions.cs:33 | conversely, any such suffix is the path's extension |
| ExecutableExtensions.NoExtensionAfterSeparator | src/Resyslib.IO.Core/Extensions/IsExecutableExtensions.cs:33 | a file name without a dot has no extension, whatever its directory holds |
| ExecutableExtensions.TrailingDotNoExtension | src/Resyslib.IO.Core/Extensions/IsExecutableExtensions.cs:33 | a path ending in a dot has no extension |
| ExecutableExtensions.IsExecutableExtension | src/Resyslib.IO.Core/Extensions/IsExecutableExtensions.cs:30-148 | an executable path has an extension of at least two characters, and some platform query holds |
| ExecutableExtensions.IsExecutableExtensionMeaning | src/Resyslib.IO.Core/Extensions/IsExecutableExtensions.cs:30-148 | the result holds iff the extension is in the set of the first platform whose query holds (Windows, Linux, macOS, FreeBSD, Android, iOS in that order), and is false when none holds |
| ExecutableExtensions.JarExecutable | src/Resyslib.IO.Core/Extensions/IsExecutableExtensions.cs:35-144 | `.jar` is executable on every platform branch except iOS |
| ExecutableExtensions.MobilePlatforms | src/Resyslib.IO.Core/Extensions/IsExecutableExtensions.cs:116-144 | on Android `.apk` is executable and `.aab` is not; on iOS exactly `.ipa` is |
| ExecutableExtensions.NoExtensionNeverExecutable | src/Resyslib.IO.Core/Extensions/IsExecutableExtensions.cs:32-147 | an empty extension is never executable, and nothing is when no platform query holds |
| ExecutableExtensions.LinuxQueryComesFirst | src/Resyslib.IO.Core/Extensions/IsExecutableExtensions.cs:49-121 | a runtime answering both Linux and Android gets the Linux switch, so `.apk` is not executable there |
| ExecutableExtensions.WindowsIsCaseSensitive | src/Resyslib.IO.Core/Extensions/IsExecutableExtensions.cs:37-47 | `setup.exe` is executable on Windows and `setup.EXE` is not |
| FileFinder.IsAFile | AlastairLundy.Extensions.IO/Resyslib.IO/Files/FileFinder.cs:29-77 | an existing file is a file; a missing one is only if its path, as UTF-16 code units, holds a dot |
| FileFinder.IsAFileMeaning | AlastairLundy.Extensions.IO/Resyslib.IO/Files/FileFinder.cs:29-77 | `IsAFile` holds iff the file exists or a dot sits at one of the UTF-16 code-unit positions length-4 to length-2 |
| FileFinder.ShortExtensionIsAFile | AlastairLundy.Extensions.IO/Resyslib.IO/Files/FileFinder.cs:38-67 | a name with an extension of one to three code units counts as a file even if it does not exist; `".a"` is one |
| FileFinder.LongExtensionNotAFile | AlastairLundy.Extensions.IO/Resyslib.IO/Files/FileFinder.cs:38-71 | a missing file with a dot-free extension of four or more code units is not a file |
| FileFinder.TrailingDotNotAFile | AlastairLundy.Extensions.IO/Resyslib.IO/Files/FileFinder.cs:38-71 | a missing file whose only dot ends the name, or whose name has at most one code unit, is not a file |
| FileFinder.SupplementaryCharactersCountTwice | AlastairLundy.Extensions.IO/Resyslib.IO/Files/FileFinder.cs:38-71 | `"a.😀😀"` is six code units long, so a missing file of that name is not a file, although its dot is the third character from the end |
| FileFinder.EncodeChar | AlastairLundy.Extensions.IO/Resyslib.IO/Files/FileFinder.cs:38-68 | a character below U+10000 is the one code unit of its own value; any other is a high surrogate followed by a low surrogate that recombine to the character; only `'.'` encodes to a dot |
| FileFinder.Utf16 | AlastairLundy.Extensions.IO/Resyslib.IO/Files/FileFinder.cs:38-68 | a string's encoding is at least as long as the string, and holds a dot iff the string does |
| FileModels.Equals | AlastairLundy.Extensions.IO/AlastairLundy.Resyslib.IO.Core/Primitives/Files/FileModel.cs:68-78 | `Equals(FileModel?)` holds iff the other model is non-null and has the same three fields |
| FileModels.EqualsObject | AlastairLundy.Extensions.IO/AlastairLundy.Resyslib.IO.Core/Primitives/Files/FileModel.cs:85-100 | `Equals(object?)` holds iff the object is a `FileModel` with the same fields; null and other types give false |
| FileModels.StaticEquals | AlastairLundy.Extensions.IO/AlastairLundy.Resyslib.IO.Core/Primitives/Files/FileModel.cs:117-125 | the static `Equals` holds iff both sides are non-null and equal |
| FileModels.OpEquals | AlastairLundy.Extensions.IO/AlastairLundy.Resyslib.IO.Core/Primitives/Files/FileModel.cs:133-136 | `==` holds iff the left side is non-null and both sides are the same model |
| FileModels.OpNotEquals | AlastairLundy.Extensions.IO/AlastairLundy.Resyslib.IO.Core/Primitives/Files/FileModel.cs:144-147 | `!=` holds iff the left side is null or the two sides differ |
| FileModels.GetHashCode | AlastairLundy.Extensions.IO/AlastairLundy.Resyslib.IO.Core/Primitives/Files/FileModel.cs:106-109 | the hash combines name, extension and path, in that order, and nothing else; `EqualModelsHashAlike` shows that equal models hash alike |
| FileModels.ToString | AlastairLundy.Extensions.IO/AlastairLundy.Resyslib.IO.Core/Primitives/Files/FileModel.cs:58-61 | the string form is the full path alone |
| FileModels.EqualsIsEquivalence | AlastairLundy.Extensions.IO/AlastairLundy.Resyslib.IO.Core/Primitives/Files/FileModel.cs:68-78 | `Equals` is reflexive, symmetric and transitive on non-null models |
| FileModels.NullComparisons | AlastairLundy.Extensions.IO/AlastairLundy.Resyslib.IO.Core/Primitives/Files/FileModel.cs:117-147 | `==` is false and `!=` true whenever a side is null, `null == null` included; on any two operands `!=` is the negation of `==` |
| FileModels.OperatorsAgree | AlastairLundy.Extensions.IO/AlastairLundy.Resyslib.IO.Core/Primitives/Files/FileModel.cs:85-147 | on non-null models `==`, `Equals(FileModel?)` and `Equals(object?)` agree, and `!=` holds iff the models differ |
| FileModels.EqualModelsHashAlike | AlastairLundy.Extensions.IO/AlastairLundy.Resyslib.IO.Core/Primitives/Files/FileModel.cs:106-109 | equal models have equal hash codes, for any seed of `HashCode.Combine`, and equal strings |
| FileModels.ToStringIsPath | AlastairLundy.Extensions.IO/AlastairLundy.Resyslib.IO.Core/Primitives/Files/FileModel.cs:58-61 | `ToString` is the full path, so two different models can print alike |

## Left out

- Null strings and null arguments. Every string in the model is non-null. The null reference exceptions the library would throw are not modelled.
- Culture. `int.TryParse` is modelled for the invariant culture: ASCII digits, `'+'`/`'-'` signs, white space `' '` and `'\t'`..`'\r'`, and trailing NULs. Culture-specific sign symbols are not modelled. `ToLower` maps ASCII letters only. `StartsWith("0")` is modelled as a test of the first character.
- Exception messages are modelled as which resource is used (`InvalidNumericNotation`, `InvalidSymbolicNotation` or none). The text, and the notation that `UnixFilePermissionConverter` substitutes into it, are left out.
- `UnixFilePermissionParser.IsNumericNotation` and `IsSymbolicNotation` of the current library (src/Resyslib.IO/Permissions/UnixFilePermissionParser.cs:179, 186) only forward to the detection extensions. The model calls `NotationDetection` directly.
- The `#if` alternatives for older frameworks are not modelled separately. Their `||` chains list the same values and patterns as the `switch` forms that are modelled.
- `IsExecutableExtension` is modelled as built for .NET 5 or later. On older targets the FreeBSD branch (src/Resyslib.IO.Core/Extensions/IsExecutableExtensions.cs:93) and the Android and iOS branches (:115) are compiled out, and the answer on those platforms is always `false`. The FreeBSD guard names `NETCOREAPP_3_1_OR_GREATER`, which the SDK does not define (its symbol is `NETCOREAPP3_1_OR_GREATER`), so in effect that branch too exists only from .NET 5.
- `Path.GetExtension` follows the .NET Core behaviour: the separators are `'\\'` and `'/'` on Windows and `'/'` elsewhere. The .NET Framework volume separator is not modelled.
- The platform is a parameter: the answers of the runtime's operating-system queries.
- `FileFinder.IsAFile`: the answer of `File.Exists` is a parameter. The model gives both calls the same answer, so a file created or removed between the two calls is not modelled. The `catch` is not modelled, because `File.Exists` and the guarded indexing never throw. The path is a sequence of UTF-16 code units, as in .NET, so lone surrogates are paths too.
- `FileModels.GetHashCode`: the process-seeded `HashCode.Combine` is a parameter.
- The `FileModel` constructor is not modelled. It depends on the current directory through `Path.GetFullPath`, so the model builds `FileModel` from its three fields.
- The rest of the library is not part of this model: directory and file creation, removal, concatenation, path resolution, permission detection on disk, and dependency injection. All of it is I/O.
