# Solidity import-path resolution, modelled in Dafny

This project models how the IntelliJ Solidity plugin resolves the string in an
`import "…";` statement to a file (`SolImportPathReference`). The resolver
strips the literal's first and last characters. It then tries four strategies
in a fixed order, and the first one that finds a file wins:

1. **relative**: `../<path>` looked up from the importing file, where `..` is
   the directory that contains it;
2. **npm**: `node_modules/<path>`, at the file and then at each ancestor;
3. **EthPM**: `installed_contracts/<path with its first "/" turned into
   "/contracts/">`, at each ancestor;
4. **Foundry**: at each ancestor `d`:
   - the remappings of `d/remappings.txt` and `d/foundry.toml` are read;
   - the first remapping whose prefix occurs in the path is applied;
   - the result is looked up;
   - failing that, the default layout `lib/<lib>/src/<rest>` is tried.

The model has five modules:

- `Wrappers` holds `Option`.
- `Text` writes out the Kotlin string operations the resolver relies on:
  - `split`, which keeps empty parts;
  - `trim()` and `trim('"')`;
  - `indexOf` and `contains`, where every string contains `""`;
  - `replace`, leftmost and non-overlapping, which with an empty pattern inserts
    the replacement around every code point;
  - `replaceFirst`.
- `Vfs` is an abstract virtual file system:
  - a finite set of existing locations, each a sequence of names;
  - the text of files;
  - the already-parsed `profile.default.remappings` array of each `foundry.toml`;
  - `findFileByRelativePath`, modelled as a walk over `/`-separated segments.
- `Remappings` covers reading the two config files, merging them, and
  `applyRemappings`. `applyRemappings` and the `remappings.txt` loop are
  methods with loops, each proved equal to a specification function.
- `ImportResolver` holds:
  - quote stripping;
  - the three upward searches, which recurse on `file.parent` as the source does;
  - the EthPM rewrite;
  - the Foundry default fallback;
  - one Foundry level;
  - `findImportFile` and `singleResolve`.

Apart from the exceptions listed under "Left out", the resolver is total:
`SingleResolve(host, file, importText)` returns `Some(location)` or `None` for
every input.

Some behaviour of the code deserves stating plainly, since a reader might
expect otherwise:

- A `remappings.txt` line is split on **every** `=`, and it contributes only
  when there are exactly two parts. The two halves are trimmed, and empty
  halves are kept.
- Nothing stops an empty prefix: a line `=x` yields `("", "x")`.
  - Kotlin's `replace("", t)` puts `t` around every UTF-16 code unit (the model
    puts it around every code point; see "Left out"), and every path contains
    `""`.
  - Such an entry therefore captures every path that reaches it
    (`EmptyPrefixShadowsLater`).
- The remappings form an ordered list of pairs, not a map. The
  `remappings.txt` entries come first, then the TOML entries, with no
  deduplication.
- Remapping matches by substring containment anywhere in the path, and replaces
  every occurrence, not only a leading prefix.
- The relative strategy looks up `../<path>` from the importing **file**:
  `..` from the file is the directory that contains it.
- The literal's first and last characters are dropped whatever they are. No
  check is made that they are quotes.

## Model

| member | source | states |
|---|---|---|
| ImportResolver.ImportPathOf | src/main/kotlin/me/serce/solidity/lang/resolve/ref/SolImportPathReference.kt:18-22 | nothing for a literal shorter than 2 characters; otherwise first character + path + last character is the literal |
| ImportResolver.ImportPathOfQuoted | src/main/kotlin/me/serce/solidity/lang/resolve/ref/SolImportPathReference.kt:22 | a path between any two delimiter characters comes back exactly |
| ImportResolver.SingleResolve | src/main/kotlin/me/serce/solidity/lang/resolve/ref/SolImportPathReference.kt:17-23 | a literal shorter than 2 characters resolves to nothing; otherwise the result is `findImportFile` of the literal less its first and last characters |
| ImportResolver.FirstSome | src/main/kotlin/me/serce/solidity/lang/resolve/ref/SolImportPathReference.kt:31-46 | the short-circuit chain: nothing iff every candidate is nothing; when something is found it is the candidate at the first position that holds one |
| ImportResolver.FindImportFileIsFirstStrategyHit | src/main/kotlin/me/serce/solidity/lang/resolve/ref/SolImportPathReference.kt:31-46 | `findImportFile` is the first answer among relative, npm, EthPM and Foundry in that order; it is nothing iff all four are nothing, and a strategy's answer is used only when every earlier one found nothing |
| ImportResolver.FindImportFile | src/main/kotlin/me/serce/solidity/lang/resolve/ref/SolImportPathReference.kt:31-46 | `findImportFile`: what it finds is one of the four strategies' answers, and a hit of the relative strategy always wins; the full first-hit order is stated by `FindImportFileIsFirstStrategyHit` |
| ImportResolver.SearchUp | src/main/kotlin/me/serce/solidity/lang/resolve/ref/SolImportPathReference.kt:48-55 | the recursion on `file.parent`: nothing iff no ancestor (the file itself down to the root) hits; otherwise the hit at the nearest ancestor that hits |
| ImportResolver.FindNpmImportFile | src/main/kotlin/me/serce/solidity/lang/resolve/ref/SolImportPathReference.kt:48-55 | null iff no ancestor `d` has `d/node_modules/<path>`; otherwise the hit at the nearest such ancestor |
| ImportResolver.NpmProbeLooksInNodeModules | src/main/kotlin/me/serce/solidity/lang/resolve/ref/SolImportPathReference.kt:49 | for a path of plain names `n1/…/nk`, the probe at `d` finds exactly `d/node_modules/n1/…/nk` when every step exists |
| ImportResolver.RelativeProbeFromDirectory | src/main/kotlin/me/serce/solidity/lang/resolve/ref/SolImportPathReference.kt:32 | `../n1/…/nk` from a file finds exactly `<file's directory>/n1/…/nk` when every step exists |
| ImportResolver.EthPMRewrite | src/main/kotlin/me/serce/solidity/lang/resolve/ref/SolImportPathReference.kt:130 | a path without `/` is unchanged; otherwise only the first `/` becomes `/contracts/` and the rest of the path is kept |
| ImportResolver.EthPMRewriteOfPlain | src/main/kotlin/me/serce/solidity/lang/resolve/ref/SolImportPathReference.kt:130 | `n1/n2/…/nk` is rewritten to `n1/contracts/n2/…/nk` |
| ImportResolver.EthPMProbeLooksInContracts | src/main/kotlin/me/serce/solidity/lang/resolve/ref/SolImportPathReference.kt:129-131 | at `d`, `n1/n2/…/nk` is found exactly at `d/installed_contracts/n1/contracts/n2/…/nk` when every step exists |
| ImportResolver.FindEthPMImportFile | src/main/kotlin/me/serce/solidity/lang/resolve/ref/SolImportPathReference.kt:128-137 | null iff no ancestor has the rewritten path under `installed_contracts/`; otherwise the hit at the nearest such ancestor |
| ImportResolver.NameSegments | src/main/kotlin/me/serce/solidity/lang/resolve/ref/SolImportPathReference.kt:70-74 | the names `Paths.get` counts are non-empty and contain no `/`; how they relate to the path is stated by `NameSegmentsAtSlash` and `NameSegmentsOfName` |
| ImportResolver.NameSegmentsOfPlain | src/main/kotlin/me/serce/solidity/lang/resolve/ref/SolImportPathReference.kt:70-74 | the names of `n1/…/nk` are exactly `n1, …, nk` |
| ImportResolver.NameSegmentsAtSlash | src/main/kotlin/me/serce/solidity/lang/resolve/ref/SolImportPathReference.kt:70-75 | the names of `a/b` are the names of `a` followed by the names of `b`: empty names vanish and order is kept (`a//b` and `/a/b` have the names `a, b`) |
| ImportResolver.NameSegmentsOfName | src/main/kotlin/me/serce/solidity/lang/resolve/ref/SolImportPathReference.kt:70 | a string without `/` is one name, or no name when empty |
| ImportResolver.FoundryDefaultFallback | src/main/kotlin/me/serce/solidity/lang/resolve/ref/SolImportPathReference.kt:69-78 | fewer than two names: null |
| ImportResolver.FallbackLooksInLibSrc | src/main/kotlin/me/serce/solidity/lang/resolve/ref/SolImportPathReference.kt:73-76 | two or more names: the fallback at `d` is exactly `d/lib/<n1>/src/<n2>/…/<nk>` when every step exists |
| ImportResolver.FoundryLevel | src/main/kotlin/me/serce/solidity/lang/resolve/ref/SolImportPathReference.kt:97-103 | a hit for the remapped path wins; otherwise the fallback, computed from the path as imported and not as remapped |
| ImportResolver.FoundryLevelReadsOwnConfig | src/main/kotlin/me/serce/solidity/lang/resolve/ref/SolImportPathReference.kt:82-99 | a level's answer depends only on the file set and on that directory's own `remappings.txt` and `foundry.toml` |
| ImportResolver.FindFoundryImportFile | src/main/kotlin/me/serce/solidity/lang/resolve/ref/SolImportPathReference.kt:81-106 | null iff no level from the file up to the root finds anything (null at the root); otherwise the answer of the nearest level that finds something |
| Remappings.PairOf | src/main/kotlin/me/serce/solidity/lang/resolve/ref/SolImportPathReference.kt:88-90 | a line yields a pair iff it holds exactly one `=` |
| Remappings.PairOfSplitsAtEquals | src/main/kotlin/me/serce/solidity/lang/resolve/ref/SolImportPathReference.kt:88-90 | with its single `=` at `i`, the pair is the trimmed text before `i` and the trimmed text after it; empty halves are kept |
| Remappings.TomlEntry | src/main/kotlin/me/serce/solidity/lang/resolve/ref/SolImportPathReference.kt:118-125 | a non-text node contributes nothing; a text node contributes what its `"`-trimmed text yields as a `prefix=target` pair |
| Remappings.CollectMembers | src/main/kotlin/me/serce/solidity/lang/resolve/ref/SolImportPathReference.kt:117-125 | the collected entries are exactly the entries the elements yield: none invented, none lost |
| Remappings.CollectAppend | src/main/kotlin/me/serce/solidity/lang/resolve/ref/SolImportPathReference.kt:87-95 | collecting goes element by element, so list order is kept across a concatenation |
| Remappings.EmptyLinesContributeNothing | src/main/kotlin/me/serce/solidity/lang/resolve/ref/SolImportPathReference.kt:86-91 | dropping empty lines does not change the remappings a text yields |
| Remappings.ReadRemappingsTxt | src/main/kotlin/me/serce/solidity/lang/resolve/ref/SolImportPathReference.kt:84-93 | the `forEach`/`add` loop computes exactly the lines' pairs in file order |
| Remappings.FileRemappings | src/main/kotlin/me/serce/solidity/lang/resolve/ref/SolImportPathReference.kt:82-93 | no `remappings.txt` in the directory: no remappings; otherwise at most one remapping per line; `ReadRemappingsTxt` computes it |
| Remappings.RemappingsFromFoundryConfigFile | src/main/kotlin/me/serce/solidity/lang/resolve/ref/SolImportPathReference.kt:109-126 | no `foundry.toml` in the directory: no remappings; otherwise at most one remapping per array entry; each entry's contribution is stated by `TomlEntry` and `CollectMembers` |
| Remappings.LevelRemappings | src/main/kotlin/me/serce/solidity/lang/resolve/ref/SolImportPathReference.kt:95 | the `remappings.txt` entries form a prefix of the list and every later entry comes from `foundry.toml` |
| Remappings.LoadRemappings | src/main/kotlin/me/serce/solidity/lang/resolve/ref/SolImportPathReference.kt:82-95 | the list is the `remappings.txt` entries followed by the `foundry.toml` entries: the file entries form a prefix, and the length is the sum |
| Remappings.FirstMatch | src/main/kotlin/me/serce/solidity/lang/resolve/ref/SolImportPathReference.kt:60-61 | none iff no prefix occurs in the path; otherwise the index of an entry whose prefix occurs, with no earlier prefix occurring |
| Remappings.Remapped | src/main/kotlin/me/serce/solidity/lang/resolve/ref/SolImportPathReference.kt:58-67 | the path is unchanged when no prefix occurs; otherwise every occurrence of the first occurring prefix is replaced by that entry's target |
| Remappings.ApplyRemappings | src/main/kotlin/me/serce/solidity/lang/resolve/ref/SolImportPathReference.kt:58-67 | the loop with its early return computes `Remapped` |
| Remappings.RemappedIgnoresLater | src/main/kotlin/me/serce/solidity/lang/resolve/ref/SolImportPathReference.kt:60-63 | once an entry matches, appending further entries changes nothing |
| Remappings.RemappedSkipsUnmatched | src/main/kotlin/me/serce/solidity/lang/resolve/ref/SolImportPathReference.kt:60-63 | entries that do not match are passed over, and the rest of the list decides |
| Remappings.FileRemappingsTakePrecedence | src/main/kotlin/me/serce/solidity/lang/resolve/ref/SolImportPathReference.kt:95-97 | a matching `remappings.txt` entry beats every TOML entry; the TOML entries decide only when no file entry matches |
| Remappings.RemappedAnchoredPrefix | src/main/kotlin/me/serce/solidity/lang/resolve/ref/SolImportPathReference.kt:58-67 | a first-matching prefix that starts the path and occurs nowhere else turns `prefix + rest` into `target + rest` |
| Remappings.EmptyPrefixShadowsLater | src/main/kotlin/me/serce/solidity/lang/resolve/ref/SolImportPathReference.kt:61-62 | an empty prefix reached in the list matches every path, puts its target around every code point, and hides every later entry |
| Text.Split | src/main/kotlin/me/serce/solidity/lang/resolve/ref/SolImportPathReference.kt:88 | `n` separators give `n + 1` parts; no part holds a separator; a string without separators is a single part |
| Text.JoinSplit | src/main/kotlin/me/serce/solidity/lang/resolve/ref/SolImportPathReference.kt:88 | joining the parts of a split with the separator gives the string back |
| Text.SplitJoin | src/main/kotlin/me/serce/solidity/lang/resolve/ref/SolImportPathReference.kt:73-76 | splitting a join of separator-free parts gives the parts back |
| Text.NonEmpty | src/main/kotlin/me/serce/solidity/lang/resolve/ref/SolImportPathReference.kt:70 | keeps exactly the non-empty parts; keeps a list with no empty parts whole; order and multiplicity are stated by `NonEmptyAppend` |
| Text.Lines | src/main/kotlin/me/serce/solidity/lang/resolve/ref/SolImportPathReference.kt:86 | every line is non-empty and holds no `\r` or `\n`; which lines, in which order, is stated by `LinesAtBreak` and `LinesOfOneLine` |
| Text.SplitAtSeparator | src/main/kotlin/me/serce/solidity/lang/resolve/ref/SolImportPathReference.kt:86-88 | splitting at one separator gives the parts of the text before it followed by the parts of the text after it |
| Text.NonEmptyAppend | src/main/kotlin/me/serce/solidity/lang/resolve/ref/SolImportPathReference.kt:70 | dropping empty strings works piecewise over a concatenation, so the kept strings keep their order and multiplicity |
| Text.LinesAtBreak | src/main/kotlin/me/serce/solidity/lang/resolve/ref/SolImportPathReference.kt:86 | the lines of `a + break + b` are the lines of `a` followed by the lines of `b`: lines are the break-separated runs, in file order |
| Text.LinesOfOneLine | src/main/kotlin/me/serce/solidity/lang/resolve/ref/SolImportPathReference.kt:86 | a text without line breaks is one line, or no line when empty |
| Text.TrimStartSpec | src/main/kotlin/me/serce/solidity/lang/resolve/ref/SolImportPathReference.kt:90 | trimming the start keeps a suffix that does not start with a dropped character, and cuts only dropped characters |
| Text.TrimEndSpec | src/main/kotlin/me/serce/solidity/lang/resolve/ref/SolImportPathReference.kt:90 | trimming the end keeps a prefix that does not end with a dropped character, and cuts only dropped characters |
| Text.TrimSpec | src/main/kotlin/me/serce/solidity/lang/resolve/ref/SolImportPathReference.kt:121-125 | `trim` keeps a middle slice: everything cut is in the drop set, the slice neither starts nor ends with a dropped character, and a string with nothing to drop is kept whole |
| Text.IndexOf | src/main/kotlin/me/serce/solidity/lang/resolve/ref/SolImportPathReference.kt:61 | the leftmost occurrence of the substring; none when it occurs nowhere |
| Text.ReplaceAll | src/main/kotlin/me/serce/solidity/lang/resolve/ref/SolImportPathReference.kt:62 | a string that does not contain the pattern is unchanged |
| Text.ReplaceAllSelf | src/main/kotlin/me/serce/solidity/lang/resolve/ref/SolImportPathReference.kt:62 | replacing a pattern by itself changes nothing (a remapping `p=p` is the identity) |
| Text.LeadingOccurrenceReplaced | src/main/kotlin/me/serce/solidity/lang/resolve/ref/SolImportPathReference.kt:62 | `pat + rest`, with `pat` absent from `rest`, becomes `rep + rest` |
| Text.ReplaceFirst | src/main/kotlin/me/serce/solidity/lang/resolve/ref/SolImportPathReference.kt:130 | no occurrence: unchanged; otherwise only the leftmost occurrence is replaced |
| Text.ReplaceFirstChar | src/main/kotlin/me/serce/solidity/lang/resolve/ref/SolImportPathReference.kt:130 | for a one-character pattern, the first occurrence of that character is the one replaced |
| Text.ReplaceFirstAbsentChar | src/main/kotlin/me/serce/solidity/lang/resolve/ref/SolImportPathReference.kt:130 | a string without the character is unchanged |
| Vfs.WalkPlain | src/main/kotlin/me/serce/solidity/lang/resolve/ref/SolImportPathReference.kt:98 | walking plain names finds `at + names` exactly when every intermediate location exists, and nothing otherwise |
| Vfs.LookupPlain | src/main/kotlin/me/serce/solidity/lang/resolve/ref/SolImportPathReference.kt:98 | `findFileByRelativePath("n1/…/nk")` finds `base/n1/…/nk` exactly when every step exists |
| Vfs.Lookup | src/main/kotlin/me/serce/solidity/lang/resolve/ref/SolImportPathReference.kt:98 | `findFileByRelativePath`: what it finds exists, unless the relative path only climbs back to the base or above it; `LookupPlain`, `LookupChild` and `LookupFromParent` state what it finds |
| Vfs.WalkEndsInside | src/main/kotlin/me/serce/solidity/lang/resolve/ref/SolImportPathReference.kt:49 | a walk over segments ends at an existing location, or at the start or one of its ancestors |
| Vfs.LookupChild | src/main/kotlin/me/serce/solidity/lang/resolve/ref/SolImportPathReference.kt:82 | looking up one plain name, such as `remappings.txt`, is asking for that child |
| Vfs.LookupFromParent | src/main/kotlin/me/serce/solidity/lang/resolve/ref/SolImportPathReference.kt:32 | `../n1/…/nk` is looked up from the parent |
| Vfs.ParentPrefixes | src/main/kotlin/me/serce/solidity/lang/resolve/ref/SolImportPathReference.kt:104 | the ancestors of `file.parent` are the ancestors of `file` other than `file` itself |

## Left out

- `PsiManager.findFile` (line 24) is not modelled. It turns the found virtual
  file into a PSI file, and gives null for a directory.
  The model returns the location found, and it does not distinguish files from
  directories.
- `findFileByRelativePath` is modelled as a walk over the names of a finite set
  of existing locations. Symbolic links, case-insensitive file systems and
  platform separators are not modelled. An empty segment or `.` stays in place,
  and `..` at the root finds nothing.
- Reading `remappings.txt` (`contentsToByteArray`, UTF-8 decoding) is not
  modelled. The file's decoded text is an input.
- The `[\r\n]+` regular expression is not modelled as a regular expression.
  The text is split at every `\r` and `\n` and the empty pieces are dropped.
  Leading, trailing and between-break empty strings therefore do not appear,
  and `EmptyLinesContributeNothing` shows that this cannot change the result.
- The Jackson `TomlMapper`, its lazy singleton and the `IOException` path are
  not modelled. The nodes under `profile.default.remappings` are an input, as
  text nodes or anything else. A missing file, a missing key or an unreadable
  document gives the empty list.
- `java.nio.file.Paths` is modelled as splitting on `/` with empty names
  ignored. `InvalidPathException`, absolute roots and platform separators are
  left out. `Paths.get("")` has one (empty) name, while `NameSegments("")` has
  none. The fewer-than-two test at line 71 treats both the same.
- `Char.isWhitespace` is modelled by a fixed set of characters.
- An `IOException` from `contentsToByteArray()` (line 86) is not caught there,
  unlike the one from reading `foundry.toml` (lines 111-115). It propagates out
  of `findImportFile` and `singleResolve`. This exceptional path is not
  modelled: the text of `remappings.txt` is always available.
- Kotlin strings are sequences of UTF-16 code units. `length < 2` and
  `substring(1, length - 1)` (lines 19-22) therefore count code units, while
  the model counts code points. The two differ in two places:
  - when the literal's first or last character lies outside the Basic
    Multilingual Plane, which never happens for a quoted literal;
  - when a remapping with an empty prefix (line 62) applies to a path that
    holds such a character. Kotlin's `replace("", t)` then also puts `t`
    between the two halves of its surrogate pair, while `Interleave` puts `t`
    only around the whole code point. With the line `=x` and the import
    `"😀"`, Kotlin probes `x\uD83Dx\uDE00x`, and the model probes `x😀x`.
- `doRename` and `bindToElement` are editor glue and are not part of this
  model. They depend on `ImportFileAction.buildImportPath`, which is not part of
  this model either.
- ImportResolver.FoundryDefaultFallback: its own contract states only the
  fewer-than-two-names case. The probed location for two or more names is
  stated by `FallbackLooksInLibSrc`, for paths made of plain names.
- Text.ReplaceAll: its own contract states only the no-occurrence case. Its
  other behaviour is stated through `ReplaceAllSelf`,
  `LeadingOccurrenceReplaced` and `EmptyPrefixShadowsLater`.
