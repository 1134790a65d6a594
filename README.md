# wheels-ci-action build summary, modelled in Dafny

This project models the core of `generate_summary.py`. That script is a CI action that looks at the Python wheels a build produced. It scans the wheel files and decodes each file name into a platform label (`Linux x86_64`, `macOS ARM64`, `Windows x64`, …) and a Python version label (`3.12`, `3.14t`, `PyPy3.9`, …). From these it builds a coverage matrix, prints it as a markdown table, and checks the matrix against the workflow's requirements.

The project is organised in one module per concern:

| module | file | what it models |
|---|---|---|
| `Text` | text.dfy | the Python string operations the script relies on (`split`, `strip`, `lower`, `join`, `in`, decimal digits) |
| `Glob` | glob.dfy | `fnmatch.fnmatch` on platform labels (`*`, `?`, literal characters, case-sensitive) |
| `WheelTags` | wheel_tags.dfy | `WheelInfo.python_version`, `WheelInfo.platform_name`, `WheelInfo._extract_arch`, `parse_wheel_filename` |
| `Coverage` | coverage.dfy | the `scan_wheels` loop that fills the matrix and the two label sets |
| `Sorting` | sorting.dfy | `sorted` with a key: an insertion sort, proved to produce a sorted permutation, which is the only one when the key tells elements apart |
| `Ordering` | ordering.dfy | the sort keys of `sort_platforms` and `sort_versions` |
| `Requirements` | requirements.dfy | `parse_version_requirement`: one requirement item expanded into version labels |
| `Validation` | validation.dfy | `validate_requirements`: matrix mode and global mode, with the exact failure messages |
| `Report` | report.dfy | `generate_table`: the markdown summary |

The code works by changing things step by step in these places:
- the scan loop;
- the `max_minor` loop;
- the loops of `validate_requirements` that append errors;
- the loops of `generate_table` that append rows and cells.

Each of these is a `method` with loop invariants. Each method is proved equal to a specification function, and the properties are proved about that function as lemmas.

Regular expressions are replaced by scanners. The scanners are proved to agree with declarative reference predicates:
- `TagMatches` describes `re.match(r"cp(\d)(\d+)", tag)`.
- `PairMatches` describes `re.match(r"(\d+)\.(\d+)", s)`.

Both directions are proved, so a scanner finds a match exactly when the pattern matches.

A Python `set` has no order, but the script iterates over sets and the order of its output follows that iteration. The model therefore takes each set as a sequence in iteration order. Lemmas show that the results do not depend on that order:
- `SortPlatformsUnique`;
- `HighestMinorOrderFree`;
- `ObservedPermutation`.

Some behaviour of the code is modelled as written, because the model follows the code:
- The end of a PyPy range is read with the CPython pattern `M.m` (generate_summary.py:307). So `PyPy3.9-3.11` is a range, while `PyPy3.9-PyPy3.11` is required as written.
- `arch_order` has no entry for `x64`, which is the architecture word of `Windows x64`. That label therefore sorts after `Windows ARM64` and `Windows x86` (`WindowsX64SortsLast`).
- The end of a range contributes only its minor number; its major is discarded (generate_summary.py:310 and :342). So `3.10-4.13` means `3.10` to `3.13`.
- A CPython range is split at its first `-` and may hold more `-` after it (generate_summary.py:336-337). A PyPy range needs exactly one `-`, after index 4 (generate_summary.py:304).
- The free-threaded label `3.14t` also matches `(\d+)\.(\d+)`. It therefore counts toward the highest minor of an open-ended CPython requirement (`FreeThreadedLabelCounts`).

## Model

| member | source | states |
|---|---|---|
| Text.Lower | generate_summary.py:62 | `str.lower` on ASCII: same length, each letter lowered, no upper-case letter left |
| Text.Split | generate_summary.py:133 | `str.split` on one character: at least one piece, no piece holds the separator, joining the pieces with it gives the input back |
| Text.SplitJoin | generate_summary.py:133 | splitting a join of separator-free pieces gives exactly those pieces |
| Text.SplitOnce | generate_summary.py:305 | `split("-", 1)`: the text before the first separator and the rest, which rebuild the input |
| Text.Strip | generate_summary.py:282 | `str.strip`: the result neither begins nor ends with white space |
| Text.StripSurrounded | generate_summary.py:282 | the stripped text is a contiguous part of the input with only white space before and after it |
| Text.StripUnpadded | generate_summary.py:288 | stripping text that has no surrounding white space changes nothing |
| Text.NatToString | generate_summary.py:301 | `str(n)`: non-empty decimal digits, no leading zero, whose value is `n` |
| Text.NatToStringOfDigits | generate_summary.py:290 | `str(int(s))` gives back a canonical digit string `s` |
| Text.NatToStringInjective | generate_summary.py:333 | different numbers give different labels |
| Text.DigitRunAt | generate_summary.py:289 | the greedy run of digits `\d+` at the start of a string ends exactly at the first non-digit |
| Glob.StarMatchesAll | generate_summary.py:387 | the pattern `*` matches every platform label |
| Glob.LiteralPattern | generate_summary.py:387 | a pattern without wildcards matches exactly the label equal to it |
| Glob.PrefixPattern | generate_summary.py:387 | `prefix*` matches exactly the labels that start with `prefix` |
| Glob.LinuxStarSkipsMusl | generate_summary.py:87-92 | `Linux*` matches every `Linux <arch>` label and no `musllinux <arch>` label (matching is case-sensitive) |
| WheelTags.ScanTag | generate_summary.py:48-55 | a match found at the start of a tag has the shape `<prefix><digit><digits>` |
| WheelTags.ScanTagComplete | generate_summary.py:48-55 | every tag of that shape is found, with one major digit and the greedy run of minor digits |
| WheelTags.ScanTagExact | generate_summary.py:48-55 | a match is found if and only if the tag has the shape |
| WheelTags.ScanFreeThreaded | generate_summary.py:38-45 | a free-threaded match has the shape `cp<digit><digits>t` |
| WheelTags.ScanFreeThreadedExact | generate_summary.py:38-45 | a free-threaded match is found if and only if the tag has that shape |
| WheelTags.PythonVersion | generate_summary.py:34-57 | the version label is free-threaded, PyPy, a dotted CPython label, or the python tag verbatim |
| WheelTags.FreeThreadedPythonTag | generate_summary.py:38-40 | a free-threaded python tag `cpMmt` gives `M.mt`, whatever the ABI tag |
| WheelTags.FreeThreadedAbiTag | generate_summary.py:43-45 | otherwise a free-threaded ABI tag gives `M.mt` |
| WheelTags.CPythonTag | generate_summary.py:47-50 | otherwise a python tag `cpMm` gives `M.m` |
| WheelTags.PyPyTag | generate_summary.py:52-55 | a python tag `ppMm` gives `PyPyM.m` unless the ABI tag is free-threaded |
| WheelTags.UnknownPythonTag | generate_summary.py:57 | a tag matching no pattern is its own label |
| WheelTags.PythonVersionCPythonExample | tests/test_generate_summary.py:26-28 | `cp312` gives `3.12` |
| WheelTags.PythonVersionAbiExample | tests/test_generate_summary.py:34-37 | python tag `cp314` with ABI tag `cp314t` gives `3.14t` |
| WheelTags.PythonVersionPyPyExample | tests/test_generate_summary.py:39-41 | `pp39` gives `PyPy3.9` |
| WheelTags.ExtractArch | generate_summary.py:101-117 | one of seven architecture names, and `unknown` exactly when no architecture word occurs |
| WheelTags.PlatformName | generate_summary.py:60-99 | a macOS tag gives one of the four macOS labels, a Windows tag one of the four Windows labels, a Linux-family tag `Linux <arch>` or `musllinux <arch>`, and any other tag its lower-cased self |
| WheelTags.ArmSpelling | generate_summary.py:60-99 | one ARM tag is `ARM64` on macOS and Windows but `aarch64` on manylinux and musllinux |
| WheelTags.WindowsBranch | generate_summary.py:75-82 | a lower-cased tag starting with `win` (and not `macosx`) takes the Windows branch |
| WheelTags.ManylinuxBranch | generate_summary.py:84-87 | a manylinux tag that is neither macOS nor Windows becomes `Linux <arch>` |
| WheelTags.ParseWheelFilename | generate_summary.py:120-142 | a parsed name ends in `.whl`, and no tag holds `-` |
| WheelTags.ParseWheelFilenameOfBuilt | generate_summary.py:126-142 | a name built from at least two leading fields and three tags parses back to exactly those tags |
| WheelTags.ParseWheelFilenameShape | generate_summary.py:126-142 | every accepted name is such a build: at least five fields, with the tags last |
| WheelTags.ParseWheelFilenameRejects | tests/test_generate_summary.py:94-100 | `notawheel.tar.gz` and `invalid.whl` are rejected |
| Sorting.Insert | generate_summary.py:206 | insertion adds exactly one element |
| Sorting.InsertSorted | generate_summary.py:206 | insertion into a sorted list keeps it sorted |
| Sorting.SortBy | generate_summary.py:235 | the sorted list is a permutation of the input |
| Sorting.SortBySorted | generate_summary.py:235 | the sorted list is ordered by the key |
| Sorting.SortedUnique | generate_summary.py:206 | under a key that tells elements apart there is only one sorted permutation |
| Coverage.Decode | generate_summary.py:160-167 | a file name gives a pair exactly when it ends in `.whl` and has at least five `-`-separated fields |
| Coverage.DecodeBuilt | generate_summary.py:126-167 | a wheel name built from its fields decodes to the display name of its platform tag and the label of its Python tag |
| Coverage.DecodeAll | generate_summary.py:159-167 | one decoded pair per file, in walk order |
| Coverage.AddPair | generate_summary.py:169-171 | adding one pair keeps the matrix well formed and adds exactly that pair |
| Coverage.ScanStep | generate_summary.py:162-171 | one loop step: a name that is not a wheel is skipped, and a wheel adds its pair |
| Coverage.ScanDone | generate_summary.py:173 | after the loop the matrix holds exactly the observed pairs |
| Coverage.Scan | generate_summary.py:154-173 | the loop gives a well-formed matrix holding a pair if and only if some file decodes to it |
| Coverage.ScanWheels | generate_summary.py:145-173 | `scan_wheels` on the file names found: a matrix exactly of the wheels' (platform, version) pairs |
| Coverage.ScanDetermined | generate_summary.py:154-173 | the three results are determined by the pairs alone |
| Coverage.ObservedWitness | generate_summary.py:159-171 | every pair in the matrix comes from some file |
| Coverage.ObservedPermutation | generate_summary.py:159 | the walk order does not matter |
| Coverage.EveryWheelCounted | generate_summary.py:162-171 | every wheel's platform and version are in the sets and in the matrix |
| Ordering.StrLessIrreflexive | generate_summary.py:204 | Python's string `<` is irreflexive |
| Ordering.StrLessTransitive | generate_summary.py:204 | Python's string `<` is transitive |
| Ordering.StrLessTotal | generate_summary.py:204 | Python's string `<` is total and antisymmetric |
| Ordering.SplitLabel | generate_summary.py:200-202 | `split(" ", 1)`: the OS word holds no space, and with the architecture it rebuilds the label |
| Ordering.SplitLabelOf | generate_summary.py:200-202 | a label `<os> <arch>` splits into exactly that OS and architecture |
| Ordering.PlatformKeyLeOrder | generate_summary.py:198-204 | the order on platform keys is total, transitive and antisymmetric |
| Ordering.PlatformLeOrder | generate_summary.py:198-206 | the platform order is a total order on labels |
| Ordering.SortPlatforms | generate_summary.py:176-206 | `sort_platforms`: a permutation of the platforms, sorted by the key |
| Ordering.SortPlatformsUnique | generate_summary.py:206 | the result does not depend on the set's iteration order |
| Ordering.PlatformSortKey | generate_summary.py:198-204 | `platform_sort_key`: the key ends with the label, and both ranks are known ranks or 99 |
| Ordering.PlatformKeyOf | generate_summary.py:198-204 | the key of `<os> <arch>` is (OS rank, architecture rank, label) |
| Ordering.MacPlatformRank | generate_summary.py:64-72 | every macOS tag sorts with OS rank 3 |
| Ordering.WindowsPlatformRank | generate_summary.py:74-82 | every Windows tag sorts with OS rank 2 |
| Ordering.ManylinuxPlatformRank | generate_summary.py:84-87 | a manylinux tag sorts with OS rank 0 |
| Ordering.MusllinuxPlatformRank | generate_summary.py:89-92 | a musllinux tag sorts with OS rank 1 |
| Ordering.LinuxPlatformRank | generate_summary.py:94-97 | another linux tag sorts with OS rank 0 |
| Ordering.UnknownPlatformRank | generate_summary.py:99 | any other tag sorts last, with OS rank 99 |
| Ordering.UnknownPlatformName | generate_summary.py:99 | a tag matching no branch is its own label |
| Ordering.RawTagRank | generate_summary.py:204 | a lower-case label without `linux` has the unknown OS rank |
| Ordering.WindowsX64SortsLast | generate_summary.py:187-196 | `Windows x64` sorts after `Windows ARM64` and `Windows x86` |
| Ordering.NumberPair | generate_summary.py:228 | a match found by the scanner has the shape `<digits>.<digits>` |
| Ordering.NumberPairComplete | generate_summary.py:228 | every string of that shape is found, with greedy digit runs |
| Ordering.VersionLeOrder | generate_summary.py:212-235 | the version order is a total preorder |
| Ordering.SortVersions | generate_summary.py:209-235 | `sort_versions`: a permutation of the versions, sorted by the key |
| Ordering.VersionSortKey | generate_summary.py:212-233 | `version_sort_key`: family 0, 1 or 99; only PyPy labels get family 1; only labels ending in `t` are free-threaded; the last key exactly for labels neither pattern matches |
| Ordering.RegularLabelKey | generate_summary.py:228-231 | the key of `M.m` is (0,M,m,0) |
| Ordering.FreeThreadedLabelKey | generate_summary.py:220-225 | the key of `M.mt` is (0,M,m,1) |
| Ordering.PyPyLabelKey | generate_summary.py:214-218 | the key of `PyPyM.m` is (1,M,m,0) |
| Ordering.VersionKeyOfLabels | generate_summary.py:212-231 | the keys of `M.m`, `M.mt` and `PyPyM.m` are (0,M,m,0), (0,M,m,1) and (1,M,m,0) |
| Ordering.NumericMinorOrder | generate_summary.py:228-231 | minors compare as numbers, so `3.8` comes before `3.10` |
| Ordering.FreeThreadedFollowsRegular | generate_summary.py:220-225 | `M.mt` comes right after `M.m` |
| Ordering.PyPyAfterCPython | generate_summary.py:214-218 | every PyPy label comes after every CPython label |
| Ordering.UnknownVersionsLast | generate_summary.py:233 | a label matching no pattern gets the last key |
| Requirements.MatchVersion | generate_summary.py:289 | a match starts with the family prefix (`PyPy` or nothing) |
| Requirements.Minors | generate_summary.py:301 | `[label for minor in range(lo, hi)]`: `hi - lo` labels, the i-th for minor `lo + i` |
| Requirements.Classify | generate_summary.py:282-346 | an item required as written is the stripped item, and the family is PyPy exactly when the item starts with `PyPy` |
| Requirements.ClassifyStripped | generate_summary.py:284-346 | the same, on the stripped item |
| Requirements.FindHighestMinor | generate_summary.py:293-298 | the `max_minor` loop computes the highest matching minor |
| Requirements.Expand | generate_summary.py:285-346 | the list comprehensions of the three shapes |
| Requirements.ParseVersionRequirement | generate_summary.py:270-346 | `parse_version_requirement`: the labels the classified item resolves to |
| Requirements.HighestMinorIsMax | generate_summary.py:293-298 | `max_minor` is at least the start, at least every available minor of that major, and is the start or one of them |
| Requirements.HighestMinorOrderFree | generate_summary.py:294 | `max_minor` does not depend on the set's iteration order |
| Requirements.OpenEndedResolution | generate_summary.py:301 | `M.m+` gives `max_minor - m + 2` labels, from `M.m` to one past `max_minor` |
| Requirements.OpenEndedCoversAvailable | generate_summary.py:293-301 | `M.m+` requires every available label of major `M` from `m` on |
| Requirements.ClosedResolution | generate_summary.py:311-313 | `M.a-b` gives `M.a` to `M.b`, one label each, and nothing when `b < a` |
| Requirements.ExactResolution | generate_summary.py:316 | any other item is required as written, stripped |
| Requirements.PlainItemExact | generate_summary.py:345-346 | a CPython item with no trailing `+` and no `-` (such as `3.12`) is required as written, stripped |
| Requirements.PyPyRangeNeedsOneDash | generate_summary.py:304 | a PyPy item without exactly one `-` after index 4 is not a range |
| Requirements.MatchLabel | generate_summary.py:289 | a generated label followed by a non-digit matches back to its major and minor |
| Requirements.FreeThreadedLabelCounts | generate_summary.py:327 | `M.mt` matches the CPython pattern as `(M, m)` |
| Requirements.PyPyLabelNotCPython | generate_summary.py:327 | a PyPy label never matches the CPython pattern |
| Requirements.ClassifyOpen | generate_summary.py:287-301 | an item ending in `+` whose start matches is open-ended |
| Requirements.OpenEndedShape | generate_summary.py:287-301 | conversely, an item read as open-ended ends in `+` and its start matches its family, major and lower bound |
| Requirements.ClassifyClosed | generate_summary.py:304-313 | an item that is not open-ended, split at its first `-` into two ends that match, is a range from the start's minor to the end's minor, whatever the end's major; a PyPy item needs its only `-` after index 4 |
| Requirements.ClosedShape | generate_summary.py:304-313 | conversely, an item read as a range is not open-ended and splits at its first `-` into a start matching the family, major and lower bound and an end whose minor is the upper bound |
| Requirements.RangeSplit | generate_summary.py:304-305 | a range-shaped item splits at the first `-` into its two ends |
| Text.SplitOnceAt | generate_summary.py:305 | `split("-", 1)` cuts at the first separator, whatever follows it |
| Requirements.OpenEndedRendered | generate_summary.py:319-333 | `label+` is classified as open-ended from that label |
| Requirements.ClosedRendered | generate_summary.py:336-343 | `label-M.b` is classified as that range |
| Requirements.ClassifyRender | generate_summary.py:282-343 | writing an open-ended or range requirement out and classifying it gives it back |
| Validation.Message | generate_summary.py:375-456 | each message ends with what its failure names: the raw text, the pattern, the joined missing versions or platforms, or the expected free-threaded label |
| Validation.Messages | generate_summary.py:375-456 | one message per failure, in order |
| Validation.Filter | generate_summary.py:387 | a list comprehension with a condition: it keeps exactly the elements that satisfy it |
| Validation.FilterCount | generate_summary.py:387 | each kept element appears as often as in the input, and no other element appears |
| Validation.FilterAppend | generate_summary.py:387 | the comprehension keeps the input order: filtering a concatenation filters each part |
| Validation.FilterNone | generate_summary.py:387-391 | a condition no element satisfies keeps nothing |
| Validation.StrippedItems | generate_summary.py:394-396 | the items are non-empty, carry no surrounding white space, and are exactly the non-empty stripped parts |
| Validation.StrippedItemsFilter | generate_summary.py:394-396 | the items are the stripped parts in order with the empty ones dropped, so each appears as often as parts strip to it |
| Validation.ItemsOfJoin | generate_summary.py:415 | a comma-separated list of clean items reads back as those items |
| Validation.RequiredVersionsCover | generate_summary.py:397-399 | a version is required exactly when some item resolves to it |
| Validation.ResolveAll | generate_summary.py:397-399 | the loop that extends `required_versions` item by item |
| Validation.CheckPlatforms | generate_summary.py:402-408 | the loop over the matching platforms of one entry |
| Validation.CheckMatrix | generate_summary.py:379-408 | the loop over the entries of the requirement matrix |
| Validation.CheckTwins | generate_summary.py:452-457 | the loop over the regular labels under the `all` policy |
| Validation.CheckRequiredPlatforms | generate_summary.py:414-418 | the global platform check |
| Validation.CheckRequiredVersions | generate_summary.py:421-432 | the global version check |
| Validation.CheckFreeThreaded | generate_summary.py:435-457 | the free-threaded check |
| Validation.ValidateRequirements | generate_summary.py:349-459 | `validate_requirements`: the messages are those of the specification, and success means no message |
| Validation.MatrixModeExcludesGlobal | generate_summary.py:370-410 | with a requirement matrix, the global requirements do not affect the result |
| Validation.InvalidJsonAlone | generate_summary.py:371-376 | a requirement matrix that is not valid JSON gives exactly one failure |
| Validation.MatrixErrorsConcat | generate_summary.py:379-408 | the entries are checked one after the other, and a failing entry never stops the entries after it |
| Validation.ConcatMapAppend | generate_summary.py:379 | the failures of two runs of entries are those of the first followed by those of the second |
| Validation.ConcatMapMember | generate_summary.py:397-399 | a concatenation holds exactly what its parts hold |
| Validation.EmptyPatternSkipped | generate_summary.py:383-384 | an entry without a platform pattern adds nothing |
| Validation.NoMatchReported | generate_summary.py:387-391 | a pattern no platform matches gives exactly the `No platforms found` failure |
| Validation.PlatformErrorsSpec | generate_summary.py:402-408 | at most one failure per matching platform, listing exactly the missing versions; every platform that lacks one has its failure |
| Validation.PlatformErrorsCount | generate_summary.py:402-408 | a platform lacking some required version has its failure once per time it is listed; one lacking none has no failure |
| Validation.PlatformErrorsDistinct | generate_summary.py:387-408 | when no platform is listed twice, as when the list comes from a set, no two failures name the same platform |
| Validation.PlatformRequirementSpec | generate_summary.py:414-418 | at most one failure, listing exactly the required platforms not built, present whenever one is missing |
| Validation.VersionErrorsSpec | generate_summary.py:421-432 | at most one failure, listing exactly the missing non-free-threaded required versions, present whenever one is missing |
| Validation.MissingVersionErrorsSpec | generate_summary.py:428-432 | the same for any list of required versions |
| Validation.FreeThreaded314 | generate_summary.py:438-445 | `3.14` and `3.14+` only require `3.14t` |
| Validation.FreeThreadedOtherPolicies | generate_summary.py:435-457 | any other policy except `all` requires nothing |
| Validation.TwinErrorsSpec | generate_summary.py:452-457 | one failure per label whose free-threaded twin is missing, and no other |
| Validation.TwinErrorsCount | generate_summary.py:452-457 | the failure for a label appears once per time the label is listed, and not at all when its twin was built |
| Validation.FreeThreadedAll | generate_summary.py:447-457 | `all`: a failure exactly for each regular CPython label without its free-threaded build, as often as the label is listed |
| Report.Mark | generate_summary.py:262-265 | a cell is four characters ending in `|` |
| Report.CellsReadBack | generate_summary.py:259-266 | a row's cells read back, left to right, as whether each sorted version was built for the platform: one cell per version, a check mark exactly when built |
| Report.CellsLength | generate_summary.py:259-266 | four characters per version |
| Report.TableRows | generate_summary.py:240-267 | four lines before the rows, then one row per platform in order |
| Report.BuildRow | generate_summary.py:259-266 | the loop that builds one row cell by cell |
| Report.BuildLines | generate_summary.py:240-265 | the loop that appends the rows |
| Report.GenerateTable | generate_summary.py:238-267 | `generate_table`: the lines joined by newlines, with platforms and versions in sorted order |

## Left out

- `main` is not part of this model: argument parsing, printing, writing the step summary and the exit code.
- The directory walk `rglob("*.whl")` is replaced by the sequence of file names it yields.
- `json.loads` is replaced by its outcome. The matrix arrives as `None` when it is not valid JSON, or as a list of entries, each with an optional `platform` and an optional `versions` string. Entries of other JSON types (a list of numbers, an object instead of a list) are not modelled, and neither are non-string values.
- Glob.Matches: handles `*`, `?` and literal characters only. It does not model `[...]` character classes or the case folding `fnmatch` applies on Windows hosts.
- Text.Lower and Text.Strip: handle ASCII only. `str.lower`, `str.strip` and the regex class `\d` also act on non-ASCII characters, and those are not modelled.
- Sorting.SortBy: proved sorted and a permutation, but not proved stable. The platform key ends with the label itself, so the platform order is unique (`SortPlatformsUnique`). Two distinct version labels with equal keys, such as `3.12` and `3.12x`, are not proved to keep the relative order that Python's stable sort gives them.
- The statement at generate_summary.py:436 builds a list and discards it. It has no effect and is not modelled.
- Report.Header and Report.Separator: the header and separator lines are stated as written. No lemma reads them back, because a version label may itself hold ` | `.
