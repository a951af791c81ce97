# DocumentConverter, modelled and verified in Dafny

This project models the decision and bookkeeping layer of `DocumentConverter`
in `code/llamaparse.py`. The converter walks an input directory and lists the
documents it can send to the LlamaParse service. For each document it either
skips it, because its markdown already exists, or sends it to the automatic
or the premium parser. It writes the returned pages, joined by a blank line,
to a mirrored `.md` path below the output directory. Finally it counts what
happened.

The model is split along the program's own layers:

- `ascii.dfy` (`Ascii`): `str.upper()`, `str.lower()`, `startswith` and the
  substring test `in`, with case folding restricted to ASCII letters.
- `paths.dfy` (`Paths`): the part of `pathlib` that is used. Paths are
  absolute POSIX paths, stored as their non-empty components. The module
  covers `name`, `parent`, `suffix` and `stem` (Python 3.12 rules: the suffix
  starts at the last dot, which must be neither the first nor the last
  character), `with_suffix`, `relative_to`, and `str()` of a path.
- `policy.dfy` (`Policy`): the decisions taken from a path alone: the
  extension allow-list and the listing test, the output path, the parser tier
  and the page join.
- `disk.dfy` (`Disks`): the filesystem as a value. It holds regular files
  with their text and a set of directories. It defines
  `mkdir(parents=True, exist_ok=True)` and writing a file, together with the
  Linux `OSError`s these raise when a regular file is in the way
  (`ENOTDIR`, `EEXIST`) or a directory is being written (`EISDIR`). The
  text of such an error ends with `repr()` of the path, quoted and escaped
  as Python does.
- `conversion.dfy` (`Conversion`): the conversion of one file and of a whole
  batch, as functions of the settings, the filesystem before and the
  service's answers. It also holds the counting rule and the lists the summary
  prints.
- `scenario.dfy` (`Scenario`): the end-to-end run of three files in the
  input root, one of them already converted and one with a premium name,
  built up from the one-file steps and proved down to its counters.
- `converter.dfy` (`Converter`): the classes.
  - `FileSystem` holds the filesystem state that the methods update in
    place.
  - `DocumentConverter` has the methods `get_supported_files`,
    `get_output_path`, `is_file_already_converted`, `convert_file` and
    `convert_all_documents`, written as loops and statements in the order the
    source executes them.
  - Each method is proved to return what the `Conversion` and `Policy`
    functions say and to leave the filesystem they say.

The remote parsing service is a parameter: a function from a file and a tier
(automatic or premium) to either an exception text or the list of page texts.
Asking it twice about the same file gives the same answer. A second run gets
a second, independent service value.

The recursive directory walk (`rglob`) is also a parameter: a sequence of
entries below the input root, each flagged as a regular file or not, in
whatever order the operating system yields them.

`convert_all_documents` returns nothing in the source; it only logs its
counters and results. The model returns those counters and the `results`
list as a `Summary`, or `None` when no file was listed.

## Model

| member | source | states |
|---|---|---|
| Ascii.Upper | code/llamaparse.py:163 | `upper()` keeps the length and upper-cases every ASCII letter in place |
| Ascii.Lower | code/llamaparse.py:134 | `lower()` keeps the length and lower-cases every ASCII letter in place |
| Paths.Suffix | code/llamaparse.py:134 | `suffix` of a name; described by Paths.StemSuffixSplit, Paths.SuffixShape and Paths.SuffixOfAppended |
| Paths.Stem | code/llamaparse.py:147 | `stem` of a name; described by Paths.StemSuffixSplit, Paths.SuffixShape and Paths.SuffixOfAppended |
| Paths.Render | code/llamaparse.py:224 | `str()` of a path; described by Paths.RenderIsAbsolute, Paths.RenderEndsWithName and Paths.RenderAvoids |
| Paths.LastDot | code/llamaparse.py:134 | the index found is a dot with no dot after it, or -1 when there is no dot |
| Paths.StemSuffixSplit | code/llamaparse.py:134 | stem and suffix of a name concatenate back to the name; a non-empty name has a non-empty stem |
| Paths.SuffixShape | code/llamaparse.py:134 | a non-empty suffix is a dot and at least one more character, with no further dot |
| Paths.SuffixOfAppended | code/llamaparse.py:147 | appending a dot-extension to a non-empty stem yields that suffix and that stem back |
| Paths.WithSuffix | code/llamaparse.py:147 | `with_suffix` keeps the number of components and the parent |
| Paths.WithSuffixSpec | code/llamaparse.py:147 | `with_suffix` keeps every directory and the stem, and the new suffix reads back |
| Paths.RelativeTo | code/llamaparse.py:144 | the relative path is not empty and re-rooting it under the root gives the file back |
| Paths.RenderIsAbsolute | code/llamaparse.py:224 | `str()` of a path starts with `/` |
| Paths.RenderEndsWithName | code/llamaparse.py:224 | `str()` of a path ends with `/` and the path's name |
| Policy.Selected | code/llamaparse.py:134-136 | the listing test of one walk entry; described by Policy.SelectedIff, Policy.SupportedSelectedIff, Policy.HiddenNeverSelected, Policy.SelectedByParts, Policy.UpperCaseExtensionSelected and Policy.SelectionRejects |
| Policy.SupportedIn | code/llamaparse.py:132-139 | the supported files of a walk, in walk order by its definition; described by Policy.SupportedInMembers, Policy.SupportedInSound, Policy.SupportedInComplete and Policy.SupportedInSelected |
| Policy.OutputPath | code/llamaparse.py:144-147 | the mirrored `.md` path of a file; described by Policy.OutputPathSpec, Policy.OutputPathName, Policy.OutputPathCollision and Policy.OutputPathExample |
| Policy.IsPremium | code/llamaparse.py:163 | the premium-name test; described by Policy.PremiumIff, Policy.PremiumUpperCase, Policy.PremiumLowerCase and Policy.PremiumOnlyAsPrefix |
| Policy.TierFor | code/llamaparse.py:163 | the tier of a file from its name alone; described by Policy.PremiumIgnoresDirectories and Conversion.TieredCalls |
| Policy.JoinTexts | code/llamaparse.py:213 | the pages joined by a blank line; described by Policy.JoinTextsAppend, Policy.JoinTextsLength, Policy.JoinTextsEnds and Policy.JoinTextsExample |
| Policy.EmptyNotSupported | code/llamaparse.py:107-130 | the empty suffix is not on the allow-list |
| Policy.SupportedSelectedIff | code/llamaparse.py:104-136 | on the converter's own allow-list, an entry is listed iff it is a regular file whose lower-cased, non-empty suffix is on the list and whose name does not start with a dot |
| Policy.SelectedIff | code/llamaparse.py:133-136 | an entry is listed iff it is a regular file whose name has a suffix, whose lower-cased suffix is allowed and whose name does not start with a dot; the `.DS_Store` test adds nothing |
| Policy.HiddenNeverSelected | code/llamaparse.py:135-136 | a name starting with a dot is never listed, whatever its extension |
| Policy.SelectedByParts | code/llamaparse.py:133-136 | for a non-hidden stem plus an extension, listing comes down to the lower-cased extension being allowed |
| Policy.UpperCaseExtensionSelected | code/llamaparse.py:134 | `A.PDF` is listed |
| Policy.SelectionRejects | code/llamaparse.py:133-136 | `README`, `.secret.pdf` and a directory named `slides.pdf` are not listed |
| Policy.SupportedInMembers | code/llamaparse.py:132-139 | a path is listed iff an entry of the walk carries it and passes the test; the listing is no longer than the walk |
| Policy.SupportedInSound | code/llamaparse.py:132-137 | every listed path comes from an entry that passes the test |
| Policy.SupportedInComplete | code/llamaparse.py:132-137 | every entry that passes the test is listed |
| Policy.SupportedInSelected | code/llamaparse.py:132-137 | each position of the listing holds a path of a passing entry |
| Policy.OutputPathSpec | code/llamaparse.py:141-147 | the output path starts with the output root and repeats every directory between the input root and the file |
| Policy.OutputPathName | code/llamaparse.py:146-147 | the output is named by the input's stem plus `.md`, and its stem and suffix read back as such |
| Policy.OutputPathCollision | code/llamaparse.py:144-147 | two inputs share an output path iff they sit in the same directory and have the same stem |
| Policy.OutputPathExample | code/llamaparse.py:144-147 | `2024/Q1.report.PDF` maps to `2024/Q1.report.md`: only the final suffix changes |
| Policy.PremiumIff | code/llamaparse.py:161-163 | premium iff the name has at least nine characters and they spell `difficult` in any case |
| Policy.PremiumUpperCase | code/llamaparse.py:163 | `DIFFICULT_report.pdf` is premium |
| Policy.PremiumLowerCase | code/llamaparse.py:163 | `difficult_x.pdf` is premium |
| Policy.PremiumOnlyAsPrefix | code/llamaparse.py:163 | `report_DIFFICULT.pdf` and `DIFFICUL.pdf` are not premium |
| Policy.PremiumIgnoresDirectories | code/llamaparse.py:163 | only the file's own name decides the tier |
| Policy.JoinTextsAppend | code/llamaparse.py:213 | joining two runs of pages is joining each with one separator between: pages keep service order |
| Policy.JoinTextsLength | code/llamaparse.py:213 | the joined text is the pages' total length plus two characters per gap |
| Policy.JoinTextsEnds | code/llamaparse.py:213 | the joined text starts with the first page and ends with the last |
| Policy.JoinTextsExample | code/llamaparse.py:213 | `["Page 1", "Page 2"]` joins to `"Page 1\n\nPage 2"` and one page joins to itself |
| Disks.MakeDirs | code/llamaparse.py:150 | `mkdir(parents=True, exist_ok=True)`; described by Disks.MakeDirsSucceedsIff, Disks.MakeDirsSpec and Disks.MakeDirsKeepsSettled |
| Disks.Write | code/llamaparse.py:219-220 | the write of the output file below an existing directory; described by Disks.WriteSpec and Disks.WriteKeepsSettled |
| Disks.OsErrorText | code/llamaparse.py:227 | `str()` of an `OSError`; described by Disks.OsErrorTextPlain and Disks.OsErrorTextApostrophe |
| Disks.PyRepr | code/llamaparse.py:227 | `repr()` of the path string inside that text; described by Disks.ReprBodyCopies, Disks.PyReprPlain, Disks.PyReprDoubleQuoted and Disks.ReprEscapes |
| Disks.AncestorsMembers | code/llamaparse.py:150 | the directories `mkdir(parents=True)` creates are exactly the prefixes of the path |
| Disks.BlockedAboveIff | code/llamaparse.py:150 | `mkdir` hits a file above the path iff some proper prefix is a regular file |
| Disks.MakeDirsSucceedsIff | code/llamaparse.py:150 | `mkdir(parents=True, exist_ok=True)` succeeds iff no prefix of the path, the path included, is a regular file |
| Disks.MakeDirsSpec | code/llamaparse.py:150 | a successful `mkdir` touches no file, keeps everything that existed, makes every prefix a directory, creates nothing longer than the path, and is idempotent |
| Disks.WriteSpec | code/llamaparse.py:219-220 | a write below an existing directory fails iff the path is a directory; otherwise the path holds the text and every other file and directory is unchanged |
| Disks.MakeDirsKeepsSettled | code/llamaparse.py:150 | a successful `mkdir` keeps a reachable existing path reachable |
| Disks.WriteKeepsSettled | code/llamaparse.py:219-220 | a successful write keeps a reachable existing path reachable |
| Disks.ReprBodyCopies | code/llamaparse.py:227 | inside `repr()` quotes, plain characters and the quote not chosen are copied unchanged |
| Disks.PyReprPlain | code/llamaparse.py:227 | `repr()` of a string of plain characters is that string between single quotes |
| Disks.PyReprDoubleQuoted | code/llamaparse.py:227 | `repr()` of an otherwise plain string holding a single quote and no double quote is that string between double quotes |
| Disks.ReprEscapes | code/llamaparse.py:227 | `repr()` escapes the chosen quote and the backslash with a backslash, writes tab, newline and carriage return as `\t`, `\n`, `\r`, and the no-break space as `\xa0` |
| Disks.OsErrorTextPlain | code/llamaparse.py:227 | `str()` of `EEXIST` on `/out/a` is `[Errno 17] File exists: '/out/a'` |
| Disks.OsErrorTextApostrophe | code/llamaparse.py:227 | `str()` of `EEXIST` on `/Q1's` quotes the path with double quotes |
| Conversion.Text | code/llamaparse.py:195-227 | the message of each report; described by Conversion.SkipTextShape and Conversion.FailureTextShape |
| Conversion.AlreadyConverted | code/llamaparse.py:154-159 | the skip test and the filesystem it leaves; described by Conversion.AlreadyConvertedSpec and Conversion.SettledIsSkipped |
| Conversion.ConvertStep | code/llamaparse.py:189-229 | `convert_file`; described by Conversion.ParserCalledIff, Conversion.SkipOutcome, Conversion.BlockedOutcome, Conversion.RaisedOutcome, Conversion.EmptyAnswerOutcome, Conversion.ParsedOutcome, Conversion.StepFrame and Conversion.OnlyChosenTierMatters |
| Conversion.SkipTextShape | code/llamaparse.py:195 | the skip message starts with and contains `Skipped` |
| Conversion.FailureTextShape | code/llamaparse.py:227 | the failure message starts `Failed to convert <file>: ` and ends with the exception's text |
| Conversion.AlreadyConvertedSpec | code/llamaparse.py:154-159 | with the force flag the answer is no and nothing changes; otherwise it raises iff a regular file sits above the output path, and else answers whether the output path existed, after creating its parents |
| Conversion.SkipStep | code/llamaparse.py:193-197 | the skip branch never calls the parser, and when it succeeds it reports the input and output path |
| Conversion.WriteStep | code/llamaparse.py:215-224 | the write branch calls the chosen tier; it succeeds only with the output path and otherwise fails naming the file |
| Conversion.ParseStep | code/llamaparse.py:207-224 | after a parser call, success is always the output path |
| Conversion.StepFrame | code/llamaparse.py:189-229 | converting a file keeps every path that existed, does not change any file but its output, and creates no file but its output |
| Conversion.ParserCalledIff | code/llamaparse.py:193-207 | the parser is asked iff the file gets past the skip test, always with the file's own tier, so the premium parser is asked iff the name is premium |
| Conversion.ForcedStepCallsParser | code/llamaparse.py:156-157 | with the force flag the parser is always asked |
| Conversion.SkipOutcome | code/llamaparse.py:193-197 | an already converted file succeeds with the skip report, asks no parser, writes no file, and does not depend on the service |
| Conversion.OnlyChosenTierMatters | code/llamaparse.py:200-207 | only the answer of the file's own tier influences the outcome |
| Conversion.BlockedOutcome | code/llamaparse.py:226-229 | without the force flag, a regular file above the output path makes the conversion fail with the `mkdir` error, before any parser call, with nothing changed |
| Conversion.RaisedOutcome | code/llamaparse.py:226-229 | a parser exception becomes a failure carrying its text, and nothing is written |
| Conversion.EmptyAnswerOutcome | code/llamaparse.py:209-210 | an empty answer is the failure `No content extracted`, with nothing written |
| Conversion.WriteStepSpec | code/llamaparse.py:215-224 | writing succeeds iff no file sits above the output path and it is not a directory; then it holds the joined pages and is reachable |
| Conversion.ParsedOutcome | code/llamaparse.py:200-224 | a non-empty answer is written joined by blank lines and the output path is returned; it fails only on a file in the way or a directory at the output path, writing nothing |
| Conversion.UnforcedStepKeepsFiles | code/llamaparse.py:156-159 | without the force flag no existing file is changed |
| Conversion.StepKeepsSettled | code/llamaparse.py:189-229 | converting a file keeps every reachable existing path reachable |
| Conversion.SuccessSettles | code/llamaparse.py:189-224 | a successful conversion leaves its output existing and reachable |
| Conversion.SettledIsSkipped | code/llamaparse.py:156-159 | without the force flag a reachable existing output means the file is skipped |
| Conversion.SuccessThenSkipped | code/llamaparse.py:193-197 | a file that converted is skipped the next time without the force flag, with no parser call |
| Conversion.Run | code/llamaparse.py:249-251 | a batch yields one result per file and no more parser calls than files |
| Conversion.RunGrows | code/llamaparse.py:249-251 | unfolding the loop by one file: the run over one more file appends that file's step, taken on the filesystem the files before left, to the results, the filesystem and the parser calls |
| Conversion.RunResults | code/llamaparse.py:249-251 | the k-th result is file k converted on the filesystem the files before it left |
| Conversion.TieredCalls | code/llamaparse.py:200-207 | each file paired with its own tier, in order |
| Conversion.ForcedRunCallsEveryFile | code/llamaparse.py:249-251 | with the force flag every file is sent to the parser once, with its own tier, in file order |
| Conversion.UnforcedRunKeepsFiles | code/llamaparse.py:249-251 | a batch without the force flag never changes a file that existed before |
| Conversion.RunKeepsSettled | code/llamaparse.py:249-251 | a batch keeps every reachable existing path reachable |
| Conversion.RunSplit | code/llamaparse.py:249-251 | the filesystem after a batch is the filesystem after file k's step, on what the first k files left, run on through the files after k |
| Conversion.SucceededStaysSettled | code/llamaparse.py:249-251 | a file that succeeded in a batch has its output reachable at the end of the batch |
| Conversion.SettledSkippedInRun | code/llamaparse.py:249-251 | without the force flag a file whose output is reachable before the batch is skipped in it |
| Conversion.RerunSkipsSucceeded | code/llamaparse.py:249-251 | a second batch without the force flag skips every file that succeeded in the first |
| Conversion.ResultTuples | code/llamaparse.py:250 | one `(path, success, message)` entry per result, in order |
| Conversion.Count | code/llamaparse.py:253-261 | one round of the counting rule; described by Conversion.CountReport and Conversion.ConvertedCounted |
| Conversion.TallyOf | code/llamaparse.py:253-261 | the counters over a results list; described by Conversion.TallyOfAppend and Conversion.TallyInvariant |
| Conversion.TallyOfAppend | code/llamaparse.py:252-261 | unfolding the count by one entry: counting one more entry is one more round of the counting rule on the counters so far |
| Conversion.TallyInvariant | code/llamaparse.py:242-261 | converted + skipped + failed equals the number of entries, and premium is at most converted |
| Conversion.CountReport | code/llamaparse.py:252-261 | failures count as failed and skips as skipped; a written file counts as converted (and premium for a premium name) unless its output path contains `Skipped` |
| Conversion.SkippedNameMiscounted | code/llamaparse.py:254 | a converted `Skipped.pdf` is counted as skipped, because its output path contains `Skipped` |
| Conversion.SkippedOutputName | code/llamaparse.py:147 | the output of `Skipped.pdf` is named `Skipped.md` |
| Conversion.SkippedNameContainsMarker | code/llamaparse.py:254 | an output named `Skipped.md` contains `Skipped` |
| Conversion.FailureLines | code/llamaparse.py:277-286 | the failed files the summary lists; described by Conversion.SummaryListsMatchCounters |
| Conversion.PremiumLines | code/llamaparse.py:277-286 | the premium names the summary lists; described by Conversion.SummaryListsMatchCounters |
| Conversion.SummaryListsMatchCounters | code/llamaparse.py:276-286 | the summary lists as many failed files and as many premium names as its counters say |
| Conversion.ListingUnder | code/llamaparse.py:133 | every listed path lies below the input root |
| Conversion.RenderClearOfMarker | code/llamaparse.py:254 | a path none of whose components holds an `S` does not render to a string containing `Skipped` |
| Conversion.OutputClearOfMarker | code/llamaparse.py:141-147 | when neither the output root nor the file's path below the input root holds an `S`, neither does the output path |
| Conversion.ConvertedCounted | code/llamaparse.py:253-259 | a written file whose output root and relative path hold no `S` counts as converted, and as premium iff its name is premium |
| Conversion.StepCreatesNoSibling | code/llamaparse.py:189-224 | a step creates or removes no path as long as its output other than the output itself, since the directories it makes lie above the output |
| Conversion.SiblingNotBlocked | code/llamaparse.py:150 | no regular file lies above a path next to a reachable existing path |
| Conversion.FreshConverted | code/llamaparse.py:193-224 | without the force flag, an absent output with no file above it is written when the file's own tier answers with pages, and that tier is called |
| Scenario.TopLevelOutput | code/llamaparse.py:141-147 | a file `stem.ext` directly in the input root maps to `stem.md` directly in the output root |
| Scenario.FreshStepKeeps | code/llamaparse.py:193-224 | a new output next to a reachable one is written by its tier's parser, the reachable one stays reachable and a path as long as the output stays absent |
| Scenario.SettledStepKeeps | code/llamaparse.py:193-197 | a reachable output is skipped without a parser call, stays reachable, and a path as long as it stays absent |
| Scenario.RunOne | code/llamaparse.py:249-251 | a run over one file is that file's step |
| Scenario.RunMore | code/llamaparse.py:249-251 | a run over one more file appends that file's step to the run before |
| Scenario.FirstOfThree | code/llamaparse.py:249-251 | the first of three side-by-side files, with its output absent, is written by its tier's parser |
| Scenario.SecondOfThree | code/llamaparse.py:249-251 | the second, with its output reachable, is skipped without a parser call |
| Scenario.ThirdOfThree | code/llamaparse.py:249-251 | the third, with its output absent next to the reachable second, is written by its tier's parser |
| Scenario.TwoFileRun | code/llamaparse.py:249-251 | the first two files give a written and a skipped result and one parser call |
| Scenario.ThreeFileRun | code/llamaparse.py:249-251 | three side-by-side files, the second already converted, give written, skipped, written, and parser calls for the first and the third only, each with its own tier |
| Scenario.ResultTuplesAppend | code/llamaparse.py:251 | one more result appends one more `(path, success, message)` entry |
| Scenario.ThreeReportTally | code/llamaparse.py:252-261 | written, skipped, written with only the third name premium and no `Skipped` in the output paths counts 2 converted, 1 skipped, 0 failed, 1 premium |
| Scenario.ThreeFileTally | code/llamaparse.py:252-261 | the same count for three files whose output root and relative paths hold no `S` |
| Scenario.ExampleOutputA | code/llamaparse.py:141-147 | `a.pdf` in the input root maps to `a.md` in the output root |
| Scenario.ExampleOutputB | code/llamaparse.py:141-147 | `b.docx` maps to `b.md` |
| Scenario.ExampleOutputC | code/llamaparse.py:141-147 | `DIFFICULT_c.pdf` maps to `DIFFICULT_c.md` |
| Scenario.ExampleTiers | code/llamaparse.py:161-163 | `a.pdf` goes to the automatic parser and `DIFFICULT_c.pdf` to the premium one |
| Scenario.EndToEndRun | code/llamaparse.py:189-261 | with `a.pdf` and `DIFFICULT_c.pdf` new, `b.md` already present, no force flag and pages from the parser: `a.pdf` and `DIFFICULT_c.pdf` are converted with the automatic and the premium parser, `b.docx` is skipped, and the counters are 2 converted, 1 skipped, 0 failed, 1 premium |
| Converter.FileSystem.PathExists | code/llamaparse.py:159 | `exists()` is true for a regular file or a directory |
| Converter.FileSystem.MakeDirectories | code/llamaparse.py:150 | the new state is the one `mkdir(parents=True, exist_ok=True)` leaves, or the state is unchanged and the error is returned |
| Converter.FileSystem.WriteText | code/llamaparse.py:219-220 | the new state is the one the write leaves, or the state is unchanged and the error is returned |
| Converter.DocumentConverter.Create | code/llamaparse.py:51-71 | the input and output roots lie below the project root and the output root is created; if that raises, no converter is built and the error is returned |
| Converter.DocumentConverter.GetSupportedFiles | code/llamaparse.py:104-139 | the loop returns exactly the listing of the walk, in walk order |
| Converter.DocumentConverter.GetOutputPath | code/llamaparse.py:141-152 | returns the output path and leaves the state `mkdir` of its parent leaves, or the error |
| Converter.DocumentConverter.IsFileAlreadyConverted | code/llamaparse.py:154-159 | returns the skip answer and the state of the skip test, or the error it raised |
| Converter.DocumentConverter.ConvertFile | code/llamaparse.py:189-229 | the `(bool, str)` pair and the new filesystem are those of the one-file step |
| Converter.DocumentConverter.ConvertAllDocuments | code/llamaparse.py:231-264 | no listed file gives no summary and no change; otherwise the counters, the results and the filesystem are those of the batch run, and every file lands in exactly one counter with premium at most converted |

"Reachable existing path" is the predicate `Disks.Settled`: the path exists,
and every directory above it is a directory and not a regular file.

## Left out

- API-key loading from `.env` (lines 73-93) is left out. It is configuration and either succeeds or stops the program before any conversion.
- Building the LlamaParse clients (lines 95-101 and 165-187) and `aload_data` (line 207) are left out. The remote service is the `Service` parameter, so its network behaviour, its 20 MB audio limit and its own errors appear only as an exception text or a list of pages.
- `asyncio`, `nest_asyncio` and the one-second `asyncio.sleep` between files (line 264) are left out. They are scheduling and pacing with no effect on results.
- Logging and the summary printout (lines 266-286) are left out. Only their content is modelled: the counters, `Conversion.FailureLines` and `Conversion.PremiumLines`.
- The command-line `main` and its exit codes (lines 288-328) are left out. They parse `--force` and wrap the converter.
- The order of `rglob`, symbolic links and entries that vanish while walking are not modelled. The walk is a given sequence, and `is_file()` is the entry's flag.
- `relative_to` raising `ValueError` is not modelled. Every listed file lies below the input root by construction (`Conversion.ListingUnder`), so that path cannot be taken.
- Paths are compared exactly, component string by component string, as on a case-sensitive Linux filesystem. Case-insensitive or Unicode-normalising filesystems (the macOS default among them) are not modelled: there two inputs such as `Report.pdf` and `report.docx` share one output, and the second is skipped.
- Unicode case mapping is not modelled. `upper()` and `lower()` fold only ASCII letters.
- Only the operating-system errors that the filesystem state itself determines are modelled: a file in the way of `mkdir`, and a directory at the output path. Permission errors, full disks, encoding errors on write and partial writes are left out.
- A page whose `text` is not a string is not modelled. Pages are strings.
- Disks.PyRepr: characters above U+00FF are copied as they are, while Python escapes the non-printable ones among them; surrogate escapes from undecodable file names are not modelled either.
- Disks.Write: the `ENOENT` and `ENOTDIR` errors of `open` for a missing or non-directory parent are not modelled, because the converter writes only below the directory it has just created.
- The service is one function per run. A service that answers differently when asked twice about the same file in the same run is not modelled.
- The source's inline `if` chain in the counting loop is written as a call to `Conversion.Count`, which has the same branches in the same order.
