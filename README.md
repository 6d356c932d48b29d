# Wifi scan parsing and the SOS registry, in Dafny

This project models two pieces of u-root and proves what they compute.

- `pkg/wifi/wifi.go`:
  - `parseIwlistOut` turns the text of `iwlist <if> scanning` into the list of networks it offers. Each network is a `WifiOption`: an SSID and a `SecProto`.
  - `parseIwconfig` takes the interface names out of `iwconfig` text.
  - `generateConfig` writes the `wpa_supplicant` network block for one, two or three arguments.
- `cmds/sos/sosService.go`: the SOS service's registry, a map from service name to port, with `Read`, `Register`, `Unregister` and `SnapshotRegistry`.

## Files

- `wrappers.dfy`, module `Wrappers`: `Option` and `Result`.
- `gostrings.dfy`, module `GoStrings`: the two Go `strings` functions the parser calls, `Split` and `Trim`, and two helpers.
  - `Split(s, sep)[0]` is `SplitField0`.
  - `Split(s, sep)[1]` is `SplitField1`. It returns `None` where Go's index expression panics.
  - `Trim` is `TrimRight` applied after `TrimLeft`.
  - `TrimLeft` with the whitespace set also encodes the leading `\s*` of the patterns. `TrimRight` is the second half of `Trim`.
  - Each comes with lemmas stating what it computes.
- `lineregex.dfy`, module `LineRegex`: Go's `regexp` search methods `FindAllIndex`, `FindAll`, `FindIndex` and `Find`, for multi-line patterns.
  - A pattern is a predicate on one line. A match starts at a line start, and its text is that line.
  - Every pattern in `wifi.go` starts with `^` and ends in `.*`, `$` or a fixed word whose presence is all the code tests. So this fits all of them, with the exception under "Left out".
  - The `.` of `802.11` in the WPA2 and iwconfig patterns is not escaped. Go's regexp reads the bytes as UTF-8, so that `.` takes one whole character other than a newline. That is a well-formed sequence of two to four bytes, or a single byte, since a byte that does not start one reads as U+FFFD. `Wifi.DotChar` states which bytes qualify, and `Wifi.Spells` states the pattern around the dot. The model tries every width. Only the decoder's width can fit, since the `1` after the dot never continues a sequence (`DotWidthUnique`).
- `wifi.dfy`, module `Wifi`:
  - the six patterns as line predicates;
  - `SecProto` and `WifiOption`;
  - `ParseIwconfig` and `ParseIwlistOut` as methods with loops, proved against the specification functions `IwconfigNames` and `IwlistOptions`;
  - the templates and `GenerateConfig`.
- `wifi_properties.dfy`, module `WifiProperties`: what those functions compute, stated against reference definitions.
  - For the loop: reference definitions `Kept`, `NoPanic` and `Fresh`.
  - For generateConfig: a reader of the network blocks it writes.
  - For the text: the matched lines.
- `sos.dfy`, module `Sos`: the registry as a class `SosService` with a `map` field. The four operations are methods, proved against functions of the map. The lemmas are about those functions.

## How Go's panics are modelled

`parseIwlistOut` indexes `essids[i]` and `encKeyOpts[i]` with no bounds check. It also takes field 1 of a split on `":"`, which panics when the text has no `:`. That case includes `authSuitesRE.Find` returning nil, which reads as the empty text.

The model treats none of these as a precondition. It returns the outcome `OutOfRange` of `Wifi.Parsed` instead. `FewerEssidsPanics`, `PanicAt`, `NoSuitesPanics` and `IwlistOptionsSpec` state when that happens.

## Model

| member | source | states |
|---|---|---|
| GoStrings.IndexOfSpec | pkg/wifi/wifi.go:88 | the index returned is that of the first separator, or the length when there is none |
| GoStrings.SplitField0Spec | pkg/wifi/wifi.go:88 | `Split(s, sep)[0]` is a prefix of `s`, holds no separator, and the separator or the end of `s` follows it |
| GoStrings.SplitField1Spec | pkg/wifi/wifi.go:122 | `Split(s, sep)[1]` panics exactly when `s` holds no separator; otherwise it is the separator-free text after the first separator, ended by a separator or the end |
| GoStrings.SplitField1Of | pkg/wifi/wifi.go:122 | the field 1 of `head + sep + field + tail` is `field`, for separator-free `head` and `field` and a `tail` that is empty or starts with the separator |
| GoStrings.TrimLeftSpec | pkg/wifi/wifi.go:35-39 | `TrimLeft` drops a prefix made only of cut characters, and what it keeps starts with a character outside the cutset |
| GoStrings.TrimRightSpec | pkg/wifi/wifi.go:122 | `TrimRight` keeps a prefix, drops a suffix made only of cut characters, and what it keeps ends with a character outside the cutset |
| GoStrings.TrimSpec | pkg/wifi/wifi.go:122 | `Trim` leaves neither end in the cutset, adds no character, and leaves unchanged a text whose ends are outside the cutset |
| GoStrings.TrimWrapped | pkg/wifi/wifi.go:122 | trimming a text wrapped only in cut characters gives the text back |
| GoStrings.TrimLeftPrefix | pkg/wifi/wifi.go:35-39 | trimming on the left drops exactly a leading run of cut characters that comes before a kept character |
| GoStrings.TrimmedField | pkg/wifi/wifi.go:122 | the trimmed field 1 of `head + sep + pad + t + post + tail` is `t`, when only cut characters wrap `t` |
| LineRegex.LineEndSpec | pkg/wifi/wifi.go:35-42 | no newline lies between a line start and its line's end |
| LineRegex.FindAllIndexSpec | pkg/wifi/wifi.go:109 | `FindAllIndex` lists exactly the line starts whose line matches, in increasing order, and misses none |
| LineRegex.FindAllSpec | pkg/wifi/wifi.go:110-111 | the `k`-th text `FindAll` returns is the line of the `k`-th match, and that line matches |
| LineRegex.FindIndexSpec | pkg/wifi/wifi.go:139 | `FindIndex` is nil exactly when nothing matches; otherwise it is a match with no match before it |
| LineRegex.SliceLine | pkg/wifi/wifi.go:138 | a slice that starts at a line start and ends at one holds the lines of the text that start inside it, unchanged |
| LineRegex.FindIndexInSlice | pkg/wifi/wifi.go:138-139 | `FindIndex` on such a slice finds the first line of the whole text inside the slice that matches, and nothing when none does |
| LineRegex.FirstInSlice | pkg/wifi/wifi.go:139 | the first matching line of the text inside such a slice is what `FindIndex` finds in the slice |
| LineRegex.FindInSlice | pkg/wifi/wifi.go:146 | `Find` on such a slice is the first matching line of the text inside it, or the empty text when none matches |
| Wifi.IsCellLine | pkg/wifi/wifi.go:35 | no contract of its own: the line form of `cellRE`; `FindAllIndexSpec` states which offsets the search over it gives |
| Wifi.IsEssidLine | pkg/wifi/wifi.go:36 | no contract of its own: the line form of `essidRE`; `EssidLineRoundTrip` shows that an indented `ESSID:"name"` line matches |
| Wifi.IsEncKeyOptLine | pkg/wifi/wifi.go:37 | no contract of its own: the line form of `encKeyOptRE`; `EncKeyOptValue` states what a matched line reads |
| Wifi.IsContinuation | pkg/wifi/wifi.go:38 | no contract of its own: a UTF-8 continuation byte, `0x80` to `0xBF`; `DotCharTail` uses it |
| Wifi.IsThreeByte | pkg/wifi/wifi.go:38 | no contract of its own: the well-formed three-byte UTF-8 sequences of section 4 of RFC 3629, surrogates excluded; `DotCharExamples` shows one in and one out |
| Wifi.IsFourByte | pkg/wifi/wifi.go:38 | no contract of its own: the well-formed four-byte UTF-8 sequences of section 4 of RFC 3629; `DotCharExamples` shows one |
| Wifi.DotChar | pkg/wifi/wifi.go:38 | no contract of its own: the bytes the unescaped `.` takes, one non-newline byte or one well-formed 2-4 byte sequence; `DotCharExamples`, `DotCharTail` and `DotWidthUnique` state it |
| Wifi.DotSplit | pkg/wifi/wifi.go:38 | no contract of its own: a text starts with `before`, one dot character of a given width, and `after`; `DotSplitExtend` and `DotWidthUnique` state it |
| Wifi.Spells | pkg/wifi/wifi.go:38 | no contract of its own: a text is `before`, one dot character, then `after`; `SpellsAtDot` and `DotIsWildcard` state it |
| Wifi.SpellsPrefix | pkg/wifi/wifi.go:42 | no contract of its own: a text starts with `before`, one dot character, then `after`; `IwconfigRoundTrip` and `DotSplitExtend` state it |
| Wifi.IsWpa2Line | pkg/wifi/wifi.go:38 | no contract of its own: the line form of `wpa2RE`, with the unescaped `.` as one UTF-8 character other than a newline; `Wpa2LineIff` states which lines match, and `NoWpa2InWindow` and `Wpa2At` state how it decides a cell |
| Wifi.IsAuthSuitesLine | pkg/wifi/wifi.go:39 | no contract of its own: the line form of `authSuitesRE`; `SuitesLineToken` shows that an indented suites line matches |
| Wifi.IsIwconfigLine | pkg/wifi/wifi.go:42 | no contract of its own: the line form of `iwconfigRE`, with the unescaped `.` as one UTF-8 character other than a newline; `IwconfigRoundTrip` shows that a `name  IEEE 802.11...` line matches, whatever character stands at the dot |
| Wifi.Names | pkg/wifi/wifi.go:87-89 | one name per matched line; `IwconfigLineName` states what each name is |
| Wifi.IwconfigNames | pkg/wifi/wifi.go:85-91 | no contract of its own; `IwconfigNamesSpec` states it, and `ParseIwconfig` is proved equal to it |
| Wifi.ParseIwconfig | pkg/wifi/wifi.go:85-91 | the loop returns `IwconfigNames(o)`, the name of each matched line in order |
| Wifi.ScanOf | pkg/wifi/wifi.go:109-111 | the three searches yield cell offsets that lie in the text and increase |
| Wifi.SuiteProto | pkg/wifi/wifi.go:147-154 | `WpaPsk` exactly for the token `PSK`, `WpaEap` exactly for `802.1x`, and never `NoEnc` |
| Wifi.CellEnd | pkg/wifi/wifi.go:133-136 | a cell's window ends at or after its start and within the text |
| Wifi.EssidOf | pkg/wifi/wifi.go:122 | no contract of its own; `EssidOfSpec` and `EssidColonCut` state what it reads |
| Wifi.CellEssid | pkg/wifi/wifi.go:122 | no contract of its own: the `essids[i]` index with its panic; `FewerEssidsPanics` states it |
| Wifi.EncKeyOptOf | pkg/wifi/wifi.go:127 | no contract of its own; `EncKeyOptValue` states what it reads |
| Wifi.SuiteOf | pkg/wifi/wifi.go:146 | no contract of its own; `SuitesLineToken` and `NoSuitesPanics` state what it reads |
| Wifi.SuiteSecurity | pkg/wifi/wifi.go:146-154 | no contract of its own; `SuitesAt` and `NoSuitesPanics` state it |
| Wifi.WindowSecurity | pkg/wifi/wifi.go:133-154 | no contract of its own; `NoWpa2InWindow`, `Wpa2At` and `SuitesAt` state it, and `ClassifyWindow` is proved equal to it |
| Wifi.CellSecurity | pkg/wifi/wifi.go:127-154 | no contract of its own; `CellSecuritySpec` states it, and `ReadSecurity` is proved equal to it |
| Wifi.Step | pkg/wifi/wifi.go:122-154 | no contract of its own: one turn on a cell's facts; `FoldStep` and `FoldSpec` state it |
| Wifi.Fold | pkg/wifi/wifi.go:121-155 | no contract of its own; `FoldSpec` ties it to the reference `Kept` and `NoPanic` |
| Wifi.IwlistOptions | pkg/wifi/wifi.go:108-157 | no contract of its own; `IwlistOptionsSpec` states it, and `ParseIwlistOut` is proved equal to it |
| Wifi.ReadEssid | pkg/wifi/wifi.go:122 | the statement computes `CellEssid`, a panic when there is no `i`-th ESSID line or it has no `:` |
| Wifi.ReadSecurity | pkg/wifi/wifi.go:127-154 | the statements compute `CellSecurity`: a panic without an `i`-th key line, `NoEnc` for `off`, otherwise the window's verdict |
| Wifi.ClassifyWindow | pkg/wifi/wifi.go:133-154 | the statements compute `WindowSecurity` over `o[start:end]` |
| Wifi.ScanFacts | pkg/wifi/wifi.go:109-111 | the facts of the cells of `o` are what the loop reads about each cell |
| Wifi.IwlistOptionsFold | pkg/wifi/wifi.go:113-115 | the nil check followed by the loop over the cell facts is `IwlistOptions(o)` |
| Wifi.FoldStep | pkg/wifi/wifi.go:121 | one turn of the loop moves the fold on by one cell |
| Wifi.PanicPersists | pkg/wifi/wifi.go:121-155 | once a turn panics, the whole call panics |
| Wifi.EssidsInAppend | pkg/wifi/wifi.go:126 | appending an option adds exactly its SSID to the known SSIDs |
| Wifi.Visit | pkg/wifi/wifi.go:122-154 | one turn computes `Step` of the cell's facts and keeps `knownEssids` equal to the set of SSIDs in `res`, each mapped to `true` |
| Wifi.Assemble | pkg/wifi/wifi.go:117-156 | the loop returns the fold of the cell facts over all cells |
| Wifi.ParseIwlistOut | pkg/wifi/wifi.go:108-157 | the method returns `IwlistOptions(o)` |
| WifiProperties.FreshIff | pkg/wifi/wifi.go:123 | a cell's SSID is new exactly when no earlier cell's SSID equals it |
| WifiProperties.KeptEssids | pkg/wifi/wifi.go:123-126 | the kept options carry exactly the SSIDs of the cells seen so far |
| WifiProperties.FoldSpec | pkg/wifi/wifi.go:121-155 | the loop panics exactly when some cell lacks an SSID, or a cell with a new SSID lacks a security; otherwise it returns `Kept`, the option of the first cell of each SSID in cell order |
| WifiProperties.KeptDistinct | pkg/wifi/wifi.go:123-126 | no two kept options share an SSID |
| WifiProperties.KeptLength | pkg/wifi/wifi.go:121-155 | at most one option is kept per cell |
| WifiProperties.PanicAt | pkg/wifi/wifi.go:122-131 | a cell without an SSID, or a cell with a new SSID but no security, makes the whole call panic |
| WifiProperties.KeptNonEmpty | pkg/wifi/wifi.go:121-131 | the first cell is always kept |
| WifiProperties.KeptFrom | pkg/wifi/wifi.go:121-155 | each kept option has the SSID and security of a cell that no earlier cell shares its SSID with |
| WifiProperties.KeptCells | pkg/wifi/wifi.go:121-155 | the `k`-th kept option comes from the `k`-th cell with a new SSID, and those cells increase |
| WifiProperties.FreshUnique | pkg/wifi/wifi.go:123 | two cells that each bring a new SSID have different SSIDs |
| WifiProperties.KeptInCellOrder | pkg/wifi/wifi.go:121-155 | the kept options come in the order of the cells they are read from |
| WifiProperties.IwlistOptionsSpec | pkg/wifi/wifi.go:108-157 | parseIwlistOut panics exactly when `NoPanic` fails on the cells of `o`; otherwise it returns `Kept` of them |
| WifiProperties.IwlistEmptyIff | pkg/wifi/wifi.go:109-115 | the result is the empty list with no panic exactly when the text has no `Cell` line |
| WifiProperties.IwlistDistinct | pkg/wifi/wifi.go:118-126 | the options carry distinct SSIDs and number at most the `Cell` lines |
| WifiProperties.IwlistOptionFrom | pkg/wifi/wifi.go:121-155 | each option has the SSID and security read off a cell of `o` that is the first with that SSID |
| WifiProperties.FirstCellFresh | pkg/wifi/wifi.go:122-123 | the first cell of an option's SSID brings a new SSID |
| WifiProperties.IwlistInCellOrder | pkg/wifi/wifi.go:121-155 | the options come in the order of their first cells in `o` |
| WifiProperties.IwlistOptionsComplete | pkg/wifi/wifi.go:121-126 | without a panic, every cell's SSID is among the options |
| WifiProperties.FewerEssidsPanics | pkg/wifi/wifi.go:122 | fewer ESSID lines than `Cell` lines makes the call panic |
| WifiProperties.EssidOfSpec | pkg/wifi/wifi.go:122 | the SSID read panics exactly when the line holds no `:`; the SSID holds no `:` and has no quote or newline at either end |
| WifiProperties.EssidLineRoundTrip | pkg/wifi/wifi.go:122 | an indented `ESSID:"name"` line matches the ESSID pattern and gives `name` back |
| WifiProperties.EssidColonCut | pkg/wifi/wifi.go:122 | an SSID that holds `:` is cut at its first `:` |
| WifiProperties.EncKeyOptValue | pkg/wifi/wifi.go:127 | a matched key line reads `off` exactly when it ends in `off`, and `on` exactly when it ends in `on` |
| WifiProperties.CellSecuritySpec | pkg/wifi/wifi.go:127-133 | a cell with no `j`-th key line panics; it is `NoEnc` exactly when its key line says `off`, whatever the text holds; with `on`, its window decides |
| WifiProperties.ScanWindows | pkg/wifi/wifi.go:133-138 | every cell's window starts at a line start and ends at one, or at the end of the text |
| WifiProperties.NoWpa2InWindow | pkg/wifi/wifi.go:138-143 | with no WPA2 line starting inside the window, the cell is `NotSupportedProto`, whatever text lies outside the window |
| WifiProperties.Wpa2At | pkg/wifi/wifi.go:139-146 | the suites search covers the window from its first WPA2 line on |
| WifiProperties.SuitesAt | pkg/wifi/wifi.go:145-154 | the first suites line at or after the window's first WPA2 line decides the cell, through its token |
| WifiProperties.NoSuitesPanics | pkg/wifi/wifi.go:146 | a WPA2 line with no suites line after it in the window makes the split panic |
| WifiProperties.Wpa2LineIff | pkg/wifi/wifi.go:38 | an indented line is a WPA2 line exactly when its text spells `IE: IEEE 802.11i/WPA2 Version 1` with one character other than a newline at the dot |
| WifiProperties.SuitesLineToken | pkg/wifi/wifi.go:146-154 | an indented `Authentication Suites ... : token` line matches the pattern, and its token with spaces and newlines trimmed classifies the cell |
| WifiProperties.SuitesLineMatches | pkg/wifi/wifi.go:39 | an indented line that starts with `Authentication Suites ` matches the suites pattern |
| WifiProperties.SuitesLineReads | pkg/wifi/wifi.go:146-154 | line 146 reads the trimmed token after the suites line's `:`, and the switch classifies the cell by it |
| WifiProperties.IwconfigLineName | pkg/wifi/wifi.go:88 | the name of a matched line is the line's text before its first space; it is non-empty and starts with a letter or a digit |
| WifiProperties.IwconfigNamesSpec | pkg/wifi/wifi.go:85-91 | one name per matched line, in line order, with no matched line missing; each name is its line's text before the first space |
| WifiProperties.IwconfigRoundTrip | pkg/wifi/wifi.go:85-89 | a line `name   IEEE 802.11...`, with any one character other than a newline at the dot, matches the pattern and gives `name` back |
| WifiProperties.DotSplitExtend | pkg/wifi/wifi.go:42 | a text that starts with the pattern still does with more text after it |
| WifiProperties.SpellsAtDot | pkg/wifi/wifi.go:38-42 | `before + x + after` spells the pattern for every dot character `x` |
| WifiProperties.DotWidthUnique | pkg/wifi/wifi.go:38-42 | two widths of the dot character fit only when the text after the dot starts with a continuation byte, and neither pattern continues with one; so the width is the one Go's UTF-8 decoder takes |
| WifiProperties.DotCharTail | pkg/wifi/wifi.go:38 | every byte of a dot character after its first is a continuation byte |
| WifiProperties.DotCharExamples | pkg/wifi/wifi.go:38 | one ASCII byte and the UTF-8 encodings of `é`, `€` and an emoji are dot characters; a newline, two ASCII bytes and an encoded surrogate are not |
| WifiProperties.DotIsWildcard | pkg/wifi/wifi.go:38-42 | with any one character other than a newline at the dot, `é` say, `IE: IEEE 802é11i/WPA2 Version 1` is a WPA2 line and `wlan0 IEEE 802é11` an iwconfig line naming `wlan0` |
| WifiProperties.QuotedFieldAt | pkg/wifi/wifi.go:20-30 | a quote-free value followed by a quote is read as that value |
| WifiProperties.OpenConfigRoundTrip | pkg/wifi/wifi.go:20-24 | the open block of an SSID reads back as that SSID exactly when the SSID holds no `"` |
| WifiProperties.EapConfigRoundTrip | pkg/wifi/wifi.go:25-30 | the EAP block of quote-free fields reads back as those fields, each in its place |
| WifiProperties.QuotedFieldParts | pkg/wifi/wifi.go:20-30 | a field the reader takes is its value, the expected text after it, and the rest, in that order |
| WifiProperties.ReadOpenConfigSound | pkg/wifi/wifi.go:20-24 | whatever the open-block reader accepts is exactly the open block of the SSID it reads |
| WifiProperties.ReadEapConfigSound | pkg/wifi/wifi.go:25-30 | whatever the EAP-block reader accepts is exactly the EAP block of the three fields it reads |
| WifiProperties.EapAssembled | pkg/wifi/wifi.go:25-30 | the three fields of a read EAP block put back into the template give the block |
| WifiProperties.OpenBlockIsNotEapBlock | pkg/wifi/wifi.go:20-30 | no open block equals any EAP block: the open one ends in `NONE` and a brace, the EAP one in a quote and a brace |
| WifiProperties.OpenIsNotEap | pkg/wifi/wifi.go:20-30 | an open block never reads as an EAP block, whatever its SSID |
| WifiProperties.EapIsNotOpen | pkg/wifi/wifi.go:20-30 | an EAP block never reads as an open block, whatever its fields |
| WifiProperties.GenerateConfigSpec | pkg/wifi/wifi.go:213-229 | the argument-count error `BadArgCount` exactly for 0 or more than 3 arguments. One argument always succeeds with a block that does not read as an EAP block; it reads back as the open block of `a[0]` exactly when `a[0]` holds no quote. Three arguments always give an EAP block, never an open block; for quote-free arguments it reads back `ssid=a[0]`, `identity=a[2]`, `password=a[1]`. Two give the passphrase tool's result, with its error wrapped together with both arguments |
| Wifi.NoPassphraseConfig | pkg/wifi/wifi.go:20-24 | no contract of its own: the `nopassphrase` template filled; `OpenConfigRoundTrip` reads the SSID back |
| Wifi.EapConfig | pkg/wifi/wifi.go:25-30 | no contract of its own: the `eap` template filled; `EapConfigRoundTrip` reads the three fields back |
| Wifi.ConfigError.Message | pkg/wifi/wifi.go:221-226 | no contract of its own: the texts of the two errors; `ConfigErrorMessages` states them |
| Wifi.GenerateConfig | pkg/wifi/wifi.go:213-229 | no contract of its own; `GenerateConfigSpec` states it for every argument count |
| WifiProperties.ConfigErrorMessages | pkg/wifi/wifi.go:221-226 | the argument-count error differs from every passphrase error, and a passphrase error begins with the SSID and ends with the tool's error |
| Sos.SosService.constructor | cmds/sos/sosService.go:14-17 | a new service has an empty registry, the state `startServer`'s `make(Registry)` (not shown) gives; see "Left out" |
| Sos.SosService.Read | cmds/sos/sosService.go:19-27 | returns `ReadOf(registry, name)` and changes nothing |
| Sos.SosService.Register | cmds/sos/sosService.go:29-38 | the new registry is `Registered(old, name, port)` and the error is `RegisterError(old, name)` |
| Sos.SosService.Unregister | cmds/sos/sosService.go:40-44 | the new registry is the old one without the name |
| Sos.SosService.SnapshotRegistry | cmds/sos/sosService.go:46-54 | the loop returns a map equal to the registry and changes nothing; Dafny maps are values, so later changes to the registry cannot reach the copy |
| Sos.ReadOf | cmds/sos/sosService.go:22-26 | no contract of its own; `ReadSpec` states it, and `SosService.Read` returns it |
| Sos.Registered | cmds/sos/sosService.go:32-36 | no contract of its own; `RegisterSpec` states it |
| Sos.RegisterError | cmds/sos/sosService.go:32-37 | no contract of its own; `RegisterSpec` states it |
| Sos.Unregistered | cmds/sos/sosService.go:43 | no contract of its own; `UnregisterSpec` and `UnregisterIdempotent` state it |
| Sos.ReadSpec | cmds/sos/sosService.go:22-26 | Read succeeds exactly for a registered name, with its port; otherwise it returns port 0 and "`<name>` is not in the registry" |
| Sos.RegisterSpec | cmds/sos/sosService.go:32-37 | Register succeeds exactly for a free name and then maps it to the port, touching no other entry; for a taken name it fails and leaves the registry unchanged |
| Sos.ReadAfterRegister | cmds/sos/sosService.go:19-38 | after a successful Register, Read returns the registered port |
| Sos.UnregisterSpec | cmds/sos/sosService.go:40-44 | after Unregister the name is absent and Read fails on it; no other entry changes |
| Sos.UnregisterIdempotent | cmds/sos/sosService.go:43 | Unregister of an absent name changes nothing, so a second Unregister does nothing more |
| Sos.RegisterUnregister | cmds/sos/sosService.go:29-44 | Register of a free name followed by Unregister of it restores the registry |
| Sos.RegisterAfterUnregister | cmds/sos/sosService.go:29-44 | after Unregister the name is free again, and Register of it only adds that entry |

## Left out

- `WifiWorker.Connect`, `NewWorker`, `ScanInterfaces`, `ScanWifi` and `ScanCurrentWifi` (pkg/wifi/wifi.go:70-99, 159-211): they run external programs, write a file, start goroutines and race a timer. Only the pure functions they call are modelled.
- `passphrase.Run` (pkg/wifi/wifi.go:219): the WPA passphrase-to-PSK tool. `GenerateConfig` takes it as a function parameter whose error is given by its text.
- The `sync.RWMutex` of `SosService`, `main` and `startServer`, which is not shown: each operation is one atomic step. The receivers in cmds/sos/sosService.go:19, 29, 40 and 46 are written `(SosService s)`, which is not valid Go. The model gives these functions the intended meaning, methods on `SosService`.
- The regular-expression engine. Each pattern is a predicate on one line (see "Files"). Two behaviours of RE2's `\s*`, which also matches newlines, are not captured:
  - The leading `\s*` of the Cell, ESSID, key, WPA2 and suites patterns can take in whitespace-only lines before the line the model matches. Go's match then starts earlier, and for `Cell` so does the cell's window. The windows differ only by whitespace-only lines, which hold no marker. The fields after `:` are the same.
  - The `\s*` of the iwconfig pattern can join an alphanumeric word that ends one line to a line starting with `IEEE 802.11`. The model matches only within one line.
- Bytes: Go's `[]byte` input and output are modelled as `string`, one character per byte. The patterns are ASCII apart from the unescaped `.` of `802.11`, and only there does Go's UTF-8 decoding matter. It is modelled there (`Wifi.DotChar`).
- nil versus empty slices: parseIwlistOut's nil result and an empty list are both `Options([])`, and parseIwconfig's nil is `[]`.
- `WifiProperties.GenerateConfigSpec`: for three arguments, the read-back of the fields is stated only when none of them holds a `"`. A quote inside a field ends that field early in the block, and the lemma then promises only that an EAP block is produced and that it does not read as an open block.
- `Sos.SosService.constructor` stands for the `make(Registry)` initialisation in `startServer`, which is not shown: cmds/sos/sosService.go:14-17 only declares the struct. The zero value `SosService{}`, whose `registry` is a nil map, is not modelled. On it `Read`, `Unregister` and `SnapshotRegistry` act as on an empty map, but `Register` panics at line 36 when it assigns to the nil map.
- Map iteration order in `SnapshotRegistry`: the loop takes the names in an arbitrary order, chosen with `:|`.
- `Wifi.ParseIwlistOut` is one loop in the source, written here as the method together with the helper methods `Assemble`, `Visit`, `ReadEssid`, `ReadSecurity` and `ClassifyWindow`. They run the same statements in the same order.
- `Sos.Uint` is Go's `uint` at 64 bits. No operation does arithmetic on ports, so the width only bounds the values.
