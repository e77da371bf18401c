# unifile in Dafny

A model of `unifile`, a utility that repairs file and directory names: it
cleans each name (control characters, umlauts, accents, non-ASCII) and renames
the entries of a directory tree to their cleaned names. The repository holds
three variants of it, and each is modelled:

- `build/lib/unifile/unifile.py` — the packaged copy. `clean_filename`
  validates its arguments, collapses control characters, and in `ascii` mode
  applies the umlaut table, NFKD decomposition and an ASCII filter.
  `process_directory` checks its argument (including read and execute
  permission), walks the tree bottom-up, moves a renamed file to the first free
  `{base}-{n}{ext}`, and merges a directory into an existing one of the cleaned
  name. `process_path`, which the command line calls, does the same per entry
  of `rglob('*')` and catches every failure.
- `src/unifile/unifile.py` — the same `clean_filename` (lines 46-71 are lines
  48-73 of the packaged copy, so both are modelled by `UnifileClean`); its
  `process_directory` renames each entry straight onto its cleaned name.
- `src/utf8fix/utf8fix.py` — a cleaner that replaces only the first run of
  control characters by `withNull`, has no umlaut table and no mode check; its
  `process_directory` checks more, then makes two passes: directories
  bottom-up, then files over a fresh top-down walk.

Modules, in dependency order:

- `Errors` — the exceptions, a `Result` and an `Outcome` (returned or raised).
- `Text` — characters, control and ASCII predicates, decimal numerals.
- `PosixPath` — `os.path.splitext` with POSIX semantics (split at the last dot
  of the last component, leading dots do not count) and the suffixed names
  `{base}-{n}{ext}`.
- `Nfkd` — NFKD decomposition followed by dropping combining marks, as a
  per-character `fold` parameter.
- `UnifileClean`, `Utf8fixClean` — the two cleaners.
- `Fs` — the file system: a class `FileSystem` whose field `entries` maps
  paths (`seq<string>`) to `File(data)` or `Dir`, with `exists`, `isfile`,
  `isdir`, `os.rename`, `shutil.move`, `os.rmdir` and `os.listdir` as methods,
  and `os.listdir`'s order as a function `order` of the set of names.
  A file's `data` stands for its content, so "no content lost" is a statement
  about the set `FileData(entries)`. `Join` is `os.path.join` followed by lexical
  resolution: a cleaned name holding a slash, or equal to `.` or `..`, names
  what its parts name, not a child; a trailing slash is dropped and `..`
  cancels the part before it whatever that part is.
- `Walk` — `os.walk` bottom-up and top-down, as a sequence of steps
  `(root, dirs, files)`.
- `Report` — the log as abstract records (`WouldRename`, `Renamed`, `Merged`,
  `Failed`) and the records a dry run owes to a tree.
- `UnifileBuild`, `UnifileRglob`, `UnifileSrc`, `Utf8fixRewrite` — the tree
  rewriters. Each loop of the source is a method proved equal to a function
  that states what the loop does to the tree and the log (`StepsRun`,
  `PathRun`, `TwoPassRun`, …); the lemmas about those functions state what
  a run keeps (content, everything outside the top), what a dry run logs,
  and how a real run's log answers the dry run's, record by record.

A raised exception is an `Err`/`Fail` result; a caught and logged one is a
`Failed` record in the log.

## Model

| member | source | states |
|---|---|---|
| UnifileClean.CleanFilename | build/lib/unifile/unifile.py:48-73 | TypeError for a non-`str` name, then ValueError for a mode other than `preserve`/`ascii`, and a result exactly when both checks pass; in `ascii` mode the result is all ASCII; in `preserve` mode a name without control characters comes back unchanged |
| UnifileClean.AfterLastControl | build/lib/unifile/unifile.py:55-56 | the last segment of `re.split(r'[\x00-\x1f]+', name)`: a suffix of the name with no control character, preceded by a control character whenever it is shorter than the name |
| UnifileClean.CollapseControlsSpec | build/lib/unifile/unifile.py:54-56 | a name with a control character becomes `''` when it ends in one, else `filewithNull` followed by the extension of the segment after the last control run |
| UnifileClean.CollapseNoControls | build/lib/unifile/unifile.py:53-56 | the collapsed name has no control character |
| UnifileClean.TokenKeepsExt | build/lib/unifile/unifile.py:56 | `splitext` of `filewithNull` plus an extension gives back exactly that token and that extension |
| UnifileClean.CleanNoControls | build/lib/unifile/unifile.py:48-73 | in both modes the cleaned name has no control character |
| UnifileClean.CleanPrintableAscii | build/lib/unifile/unifile.py:48-73 | a printable ASCII name is a fixed point in both modes |
| UnifileClean.CleanIdempotent | build/lib/unifile/unifile.py:48-73 | cleaning a cleaned name changes nothing, in both modes |
| UnifileClean.CleanCollapsedPrintable | build/lib/unifile/unifile.py:53-73 | when the collapsed name is printable ASCII, it is the result in both modes |
| UnifileClean.UmlautMapIndependent | build/lib/unifile/unifile.py:10-15 | no key of the umlaut table occurs in any replacement, so the order in which the replacements run does not matter |
| UnifileClean.TableOnKey | build/lib/unifile/unifile.py:61-62 | with independent entries, running the whole replace loop over one key gives that key's replacement |
| UnifileClean.UmlautOnChar | build/lib/unifile/unifile.py:61-62 | the replace loop over one character is that character's transliteration (its replacement, or itself) |
| UnifileClean.UmlautTableIsPerChar | build/lib/unifile/unifile.py:61-62 | the eight sequential `str.replace` calls equal transliterating each character on its own |
| UnifileClean.TransliterateNoControls | build/lib/unifile/unifile.py:61-62 | the umlaut replacements introduce no control character |
| UnifileClean.TransliterateAscii | build/lib/unifile/unifile.py:61-62 | the umlaut replacements leave an ASCII name alone |
| UnifileClean.AsciiUmlautsOnly | build/lib/unifile/unifile.py:58-71 | a control-free name that only umlauts keep from being ASCII cleans, in `ascii` mode, to its transliteration: the table runs before NFKD |
| UnifileClean.OneUmlaut | build/lib/unifile/unifile.py:58-71 | one non-ASCII character between ASCII text becomes its transliteration when that is ASCII |
| UnifileClean.UmlautWord | build/lib/unifile/unifile.py:58-71 | the same for a character whose replacement is given |
| UnifileClean.UeberExample | build/lib/unifile/unifile.py:43-44 | `über.txt` gives `ueber.txt` in `ascii` mode |
| UnifileClean.MuenchenExample | build/lib/unifile/unifile.py:58-62 | `München.txt` gives `Muenchen.txt` in `ascii` mode |
| UnifileClean.CapitalSharpSExample | build/lib/unifile/unifile.py:14 | the capital sharp s `ẞ` gives `Ss` in `ascii` mode |
| UnifileClean.NullExample | build/lib/unifile/unifile.py:45-46 | any name ending in a control character followed by `null.txt` gives `filewithNull.txt` in both modes, the docstring's example among them |
| UnifileClean.CollapseLastSegment | build/lib/unifile/unifile.py:55-56 | only the segment after the last control character decides the extension |
| Nfkd.DecomposeAscii | build/lib/unifile/unifile.py:67-69 | decomposition and dropping combining marks leave ASCII text alone |
| Nfkd.DecomposeNoControls | build/lib/unifile/unifile.py:67-69 | decomposition introduces no control character |
| Nfkd.DecomposeConcat | build/lib/unifile/unifile.py:67-69 | decomposition works character by character |
| Text.KeepAscii | build/lib/unifile/unifile.py:71 | the filter keeps an all-ASCII result, leaves an ASCII name unchanged and adds no control character |
| Text.DecimalRoundTrip | build/lib/unifile/unifile.py:121 | the decimal numeral of the counter reads back as the counter |
| Text.DecimalInjective | build/lib/unifile/unifile.py:121 | different counters give different numerals |
| PosixPath.RFind | build/lib/unifile/unifile.py:118 | the index of the last occurrence of a character, or -1 when there is none |
| PosixPath.SplitExt | build/lib/unifile/unifile.py:118 | `base + ext` is the whole name |
| PosixPath.SplitExtSpec | build/lib/unifile/unifile.py:118 | a non-empty extension starts at a dot of the last component that is not a leading dot; an empty one means there is no such dot |
| PosixPath.OnlyLastDotStarts | build/lib/unifile/unifile.py:118 | an extension can only start at the last dot, after the last slash |
| PosixPath.SuffixedInjective | build/lib/unifile/unifile.py:121 | `{base}-{n}{ext}` names differ for different `n` and are longer than `base + ext` |
| PosixPath.SuffixedKeepsExt | build/lib/unifile/unifile.py:118-122 | splitting a suffixed name gives the suffixed base and the original extension |
| Utf8fixClean.FirstControl | src/utf8fix/utf8fix.py:9 | where the first control run starts: no control character before it |
| Utf8fixClean.RunEnd | src/utf8fix/utf8fix.py:9 | where a control run ends: all control characters up to it, none at it |
| Utf8fixClean.CleanFilename | src/utf8fix/utf8fix.py:7-17 | never raises for a `str` name; in `ascii` mode the result is all ASCII; in any other mode, an unknown one included, a name without control characters comes back unchanged |
| Utf8fixClean.FirstRunOnly | src/utf8fix/utf8fix.py:9 | the first maximal control run is replaced by `withNull` and the rest of the name is kept |
| Utf8fixClean.LaterRunsKept | src/utf8fix/utf8fix.py:9 | outside `ascii` mode, later control runs survive cleaning |
| Utf8fixClean.ReplaceFirstRunNone | src/utf8fix/utf8fix.py:9 | a name with no control character is not touched by the substitution |
| Utf8fixClean.RunsAroundToken | src/utf8fix/utf8fix.py:9 | the token `withNull` adds no control run |
| Utf8fixClean.ReplaceFirstRunCount | src/utf8fix/utf8fix.py:9 | each call removes exactly one control run when there is one |
| Utf8fixClean.NotIdempotent | src/utf8fix/utf8fix.py:9 | outside `ascii` mode, with two or more control runs, cleaning twice differs from cleaning once |
| Utf8fixClean.OneFolded | src/utf8fix/utf8fix.py:11-15 | in `ascii` mode one non-ASCII character between ASCII text becomes its fold, with no umlaut table |
| Utf8fixClean.MunchenExample | src/utf8fix/utf8fix.py:11-15 | `münchen.doc` gives `munchen.doc` in `ascii` mode when `ü` folds to `u` |
| UnifileClean.OneAccent | build/lib/unifile/unifile.py:64-71 | a non-ASCII character outside the umlaut table, in an otherwise printable ASCII name, is replaced by its decomposition with marks removed |
| UnifileClean.CafeExample | build/lib/unifile/unifile.py:37-38 | `café.txt` gives `cafe.txt` in `ascii` mode for a decomposition of `é` to `e` plus a mark |
| UnifileClean.SampleFoldExamples | build/lib/unifile/unifile.py:37-44 | with a concrete fold that meets the decomposition's two facts, `café.txt`, `über.txt` and `München.txt` clean to `cafe.txt`, `ueber.txt` and `Muenchen.txt` |
| Nfkd.SampleFoldOk | build/lib/unifile/unifile.py:67-69 | some per-character decomposition meets `FoldOk`, so the lemmas that assume it hold for real decompositions |
| UnifileClean.CollapseStaysIn | build/lib/unifile/unifile.py:53-56 | collapsing control characters turns a name without a slash, other than `..`, into one of the same kind |
| UnifileClean.CleanStaysInUnlessAscii | build/lib/unifile/unifile.py:48-73 | outside `ascii` mode every plain name cleans to a name without a slash, other than `..` |
| UnifileClean.SolidusClean | build/lib/unifile/unifile.py:67-71 | `a／b` (fullwidth solidus, which NFKD decomposes to `/`) cleans to `a/b` in `ascii` mode |
| UnifileClean.AsciiMayLeave | build/lib/unifile/unifile.py:67-71 | in `ascii` mode a plain name can clean to one holding a slash, for a fold that meets `FoldOk` |
| Utf8fixClean.MunchenSample | src/utf8fix/utf8fix.py:11-15 | `münchen.doc` gives `munchen.doc` in `ascii` mode for a concrete fold that meets `FoldOk` |
| Utf8fixClean.ReplaceStaysIn | src/utf8fix/utf8fix.py:9 | the substitution keeps a name without a slash, other than `..`, so the whole cleaner keeps it outside `ascii` mode |
| Utf8fixClean.CleanStaysInUnlessAscii | src/utf8fix/utf8fix.py:7-17 | outside `ascii` mode every plain name cleans to a name without a slash, other than `..` |
| Fs.Join | build/lib/unifile/unifile.py:109-112 | `os.path.join(root, name)` resolved lexically: a leading slash restarts at `/`, `''` and `.` stay, `..` goes up; a plain name is the child `root/name`, and `''` or `.` name `root` itself |
| Fs.JoinSlash | build/lib/unifile/unifile.py:112 | a name holding a slash joins the part before its last slash first, then the part after it |
| Fs.JoinAbsolute | build/lib/unifile/unifile.py:112 | a name starting with a slash names the same entry whatever directory it is joined to |
| Fs.JoinDotDot | build/lib/unifile/unifile.py:112 | `..` joined to a directory names its parent |
| Fs.JoinRooted | build/lib/unifile/unifile.py:112 | `/n` joined to any directory names the entry `n` of `/` |
| Fs.JoinLeaves | build/lib/unifile/unifile.py:112 | `..` joined to `/home/u` is `/home` and `/tmp` joined to it is `/tmp`: names NFKD can produce leave the directory |
| Fs.JoinStaysIn | build/lib/unifile/unifile.py:112 | a name without a slash, other than `..`, joined to a directory names that directory or an entry directly inside it |
| Fs.NotListed | build/lib/unifile/unifile.py:141 | `os.listdir` lists no name the directory does not hold |
| Fs.NothingListed | build/lib/unifile/unifile.py:141 | `os.listdir` of an empty directory is empty |
| Fs.FileSystem.Rename | build/lib/unifile/unifile.py:125 | `os.rename` with POSIX semantics: succeeds exactly when `RenameOk`, then the subtree is re-rooted, else an OSError and no change |
| Fs.FileSystem.Move | build/lib/unifile/unifile.py:155 | `shutil.move`: into an existing directory, else onto the path; succeeds exactly when `MoveOk` |
| Fs.FileSystem.Rmdir | build/lib/unifile/unifile.py:162 | `os.rmdir`: succeeds exactly on an empty directory, which it removes |
| Fs.FileSystem.ListDir | build/lib/unifile/unifile.py:141 | `os.listdir`: the names of a directory, each once; an error for anything else |
| Fs.MoveToFree | build/lib/unifile/unifile.py:230 | onto a free path, `shutil.move` is `os.rename` |
| Fs.RenamedTree | build/lib/unifile/unifile.py:125 | a successful rename leaves a well-formed tree |
| Fs.RenameToFreeKeepsData | build/lib/unifile/unifile.py:125 | a rename onto a free path keeps every file's content |
| Fs.RenamedDataFrom | src/unifile/unifile.py:111 | a rename creates no content |
| Fs.RmdirKeepsData | build/lib/unifile/unifile.py:165 | removing an empty directory keeps every file's content |
| Walk.WalkBottomUp | build/lib/unifile/unifile.py:106 | `os.walk(topdown=False)`: one step per directory of the tree listing its subdirectories and files, every directory after all directories below it |
| Walk.WalkTopDown | src/utf8fix/utf8fix.py:50 | `os.walk(directory)`: the same steps, every directory before all directories below it |
| Walk.WalkCovers | build/lib/unifile/unifile.py:106 | every entry below the top is listed, by kind, in the step of its parent |
| Report.ProposalsMember | build/lib/unifile/unifile.py:108-114 | the dry-run records for a list of names are exactly one per name whose cleaned name differs |
| Report.DryRunExact | build/lib/unifile/unifile.py:106-137 | over a walk of the tree, the dry-run records are exactly the renames owed to the entries below the top whose cleaned name differs |
| Report.TwoPassDryRunExact | src/utf8fix/utf8fix.py:33-63 | the directory records of one walk plus the file records of another are exactly the owed renames |
| UnifileBuild.Validate | build/lib/unifile/unifile.py:94-103 | TypeError for `None`, ValueError for a falsy or missing path, PermissionError without read and execute access, in that order; success exactly for an existing, accessible path |
| UnifileBuild.CandidatesDiffer | build/lib/unifile/unifile.py:117-122 | the candidates `root/new_name`, `root/{base}-1{ext}`, … are all different paths |
| UnifileBuild.FirstFree | build/lib/unifile/unifile.py:117-123 | the suffix loop ends at the first candidate that does not exist (every earlier one exists), as the search `FreeIndex` defines it |
| UnifileBuild.CandidateInside | build/lib/unifile/unifile.py:117-123 | for a cleaned name without a slash, other than `..`, every candidate is an entry directly inside `root` below the top |
| UnifileBuild.Merge | build/lib/unifile/unifile.py:139-166 | proved equal to `MergeRun`: each listed child of the source, in listing order, goes to `dst/item` when that is free, a clashing file to the first free `dst/{base}-{n}{ext}` from `n = 1`, a clashing directory through the grandchild merge; the first exception ends the merge and propagates; otherwise the emptied source is removed |
| UnifileBuild.MergeItem | build/lib/unifile/unifile.py:142-164 | proved equal to `MergeItemRun`: the placement of one child as just described, a clashing subdirectory through the corrected grandchild merge |
| UnifileBuild.MergeChild | build/lib/unifile/unifile.py:156-162 | corrected grandchild merge, proved equal to `MergeChildRun`: each grandchild `s/n` moves to `d/n` when free, else to the first free `d/{base}-{k}{ext}`; then `s` is removed |
| UnifileBuild.MergeChildAsWritten | build/lib/unifile/unifile.py:156-162 | as written, proved equal to `MergeChildAsWrittenRun`: `shutil.move(s/n, d/n)` for each grandchild with no check (onto an existing file it replaces it, into an existing directory it nests as `d/n/n`), then `os.rmdir(s)` |
| UnifileBuild.MergeKeeps | build/lib/unifile/unifile.py:139-166 | with the corrected grandchild merge, a merge, whether it passes or fails part-way, loses no file content and creates none ("Preserves file content", line 90) |
| UnifileBuild.MergeChildKeeps | build/lib/unifile/unifile.py:156-162 | the corrected grandchild merge loses no content and creates none |
| UnifileBuild.MergeChildAsWrittenShrinks | build/lib/unifile/unifile.py:156-162 | the merge as written creates no content (it can lose some: `MergeChildAsWrittenLoses`) |
| UnifileBuild.MergeInside | build/lib/unifile/unifile.py:139-166 | a merge of a directory below the top into one at or below it changes nothing outside the top |
| UnifileBuild.MergeOs | build/lib/unifile/unifile.py:139-166 | a merge logs nothing and either passes or raises OSError |
| UnifileBuild.MergeEmptiesSource | build/lib/unifile/unifile.py:139-166 | after a merge that passes nothing is left at or below the source |
| UnifileBuild.MergeWhenEmpty | build/lib/unifile/unifile.py:139-166 | merging an empty directory just removes it; merging from a path that is not a directory raises OSError and changes nothing |
| UnifileBuild.RenameFile | build/lib/unifile/unifile.py:116-128 | proved equal to `RenameFileRun`: `os.rename` onto the first free candidate, logging `Renamed` or the caught OSError |
| UnifileBuild.FileRenameRecord | build/lib/unifile/unifile.py:116-128 | a real file rename returns normally with one record: `Renamed(src, target)` exactly when POSIX allows the rename onto the first free candidate, which then happens; `Failed(src)` exactly otherwise, with nothing changed |
| UnifileBuild.RenameDir | build/lib/unifile/unifile.py:139-172 | proved equal to `RenameDirRun`: a merge into the existing path of the cleaned name, whose exceptions propagate, else an `os.rename` whose OSError is logged |
| UnifileBuild.DirRenameRecord | build/lib/unifile/unifile.py:139-172 | onto a free cleaned name, `Renamed` exactly when POSIX allows the rename (and it happens), `Failed` exactly otherwise (and nothing changes); onto an existing one, the state the merge leaves and a `Merged` record exactly when the merge passes |
| UnifileBuild.ProcessEntry | build/lib/unifile/unifile.py:108-172 | proved equal to `EntryRun`: ValueError from `clean_filename` before any change, nothing for a name cleaning leaves alone, a proposal in a dry run, else the file or directory rename |
| UnifileBuild.ProcessNames | build/lib/unifile/unifile.py:108-172 | proved equal to `NamesRun`: the names of one kind in order, the first exception ending the loop |
| UnifileBuild.ProcessStep | build/lib/unifile/unifile.py:106-172 | proved equal to `StepRun`: the files of one step, then its directories |
| UnifileBuild.ProcessSteps | build/lib/unifile/unifile.py:106-172 | proved equal to `StepsRun`: the steps of the walk in order |
| UnifileBuild.ProcessDirectory | build/lib/unifile/unifile.py:75-172 | the checks first, with no change when they fail; then a bottom-up walk of the tree as it is, proved equal to `StepsRun` over it; with the corrected grandchild merge no content is lost or created; nothing outside the top changes when cleaned names stay in their directory |
| UnifileBuild.StepsKeep | build/lib/unifile/unifile.py:75-172 | with the corrected grandchild merge, whatever a run does, dry or real, no file content is lost or created |
| UnifileBuild.StepsInside | build/lib/unifile/unifile.py:106-172 | over a bottom-up walk below the top, when cleaned names have no slash and are not `..`, nothing outside the top changes |
| UnifileBuild.StepsDryRun | build/lib/unifile/unifile.py:106-137 | a dry run with a valid mode changes nothing, returns normally and logs exactly the walk's proposals, in order |
| UnifileBuild.StepsInvalid | build/lib/unifile/unifile.py:106-110 | an invalid mode raises ValueError, with no change and no record, exactly when some step lists a name |
| UnifileBuild.WalkEmpty | build/lib/unifile/unifile.py:106 | a walk lists no name exactly when the top holds nothing |
| UnifileBuild.StepsClean | build/lib/unifile/unifile.py:111 | at the tests of lines 111 and 134: when cleaning leaves every listed name alone, nothing is renamed or logged, dry run or not |
| UnifileBuild.FileSettles | build/lib/unifile/unifile.py:111-128 | a real file rename owed by cleaning logs one record settling its proposal: renamed onto a candidate for the cleaned name, or failed |
| UnifileBuild.DirSettles | build/lib/unifile/unifile.py:134-172 | a real directory rename owed by cleaning either logs one record settling its proposal (renamed, merged or failed) or raises OSError out of a merge with no record |
| UnifileBuild.StepsSettle | build/lib/unifile/unifile.py:106-172 | a real run with a valid mode logs, in walk order, one record per proposal of the dry run over the same walk, naming the same entry; it returns normally or raises OSError out of a merge, and when it returns normally every proposal is settled |
| UnifileBuild.GrandchildClobbered | build/lib/unifile/unifile.py:160-161 | a grandchild file moved onto a file of the same name overwrites it, and that file's content is gone |
| UnifileBuild.GrandchildClobberedExample | build/lib/unifile/unifile.py:160-161 | merging `tést/a/x.txt` into `test/a/` destroys the content of `test/a/x.txt` |
| UnifileBuild.MergeChildAsWrittenClobbers | build/lib/unifile/unifile.py:156-162 | the merge as written, over a subdirectory holding one file whose namesake exists, passes and loses that namesake's content |
| UnifileBuild.MergeChildAsWrittenLoses | build/lib/unifile/unifile.py:156-162 | the concrete tree `tést/a/x.txt`, `test/a/x.txt`: the merge as written passes and the content of `test/a/x.txt` is lost |
| UnifileBuild.OverwriteLoses | build/lib/unifile/unifile.py:161 | moving one file onto another destroys the content of the target |
| UnifileRglob.RenameItem | build/lib/unifile/unifile.py:221-265 | proved equal to `RenameItemRun`: a file goes to the first free candidate for its cleaned name, a directory is renamed or merged as by `process_directory`, and an exception out of the merge is caught and logged |
| UnifileRglob.ProcessItem | build/lib/unifile/unifile.py:209-267 | proved equal to `ItemRun`: a raising `clean_filename` is caught and logged, a name cleaning leaves alone is skipped, a dry run logs the proposal, else the renaming branch |
| UnifileRglob.ProcessPath | build/lib/unifile/unifile.py:206-267 | proved equal to `PathRun`: every item in order, none stopping the loop |
| UnifileRglob.ItemProposal | build/lib/unifile/unifile.py:213-219 | the dry-run record of one item: one exactly when its cleaned name differs, with the kind `is_file()` gives |
| UnifileRglob.PathProposalsMember | build/lib/unifile/unifile.py:208-219 | the dry-run records of a list of items are exactly those owed to one of them |
| UnifileRglob.PathDryRunExact | build/lib/unifile/unifile.py:208-219 | when `rglob` yields every entry below the path, the dry-run records are exactly the owed renames |
| UnifileRglob.PathDryRun | build/lib/unifile/unifile.py:208-219 | a dry run with a valid mode changes nothing and logs exactly the items' proposals |
| UnifileRglob.PathInvalid | build/lib/unifile/unifile.py:208-211 | an invalid mode logs one failure per item, in order, and changes nothing |
| UnifileRglob.PathClean | build/lib/unifile/unifile.py:213 | when cleaning leaves every item's name alone, nothing is renamed or logged |
| UnifileRglob.ItemSettles | build/lib/unifile/unifile.py:209-267 | a real run on one item returns normally; it logs nothing when cleaning leaves the name alone, else one record naming the item: renamed onto a candidate (file) or onto its cleaned name (directory), merged, or failed |
| UnifileRglob.PathSettles | build/lib/unifile/unifile.py:206-267 | a real run with a valid mode returns normally and logs, in order, one such record for each item whose cleaned name differs |
| UnifileRglob.PathKeeps | build/lib/unifile/unifile.py:206-267 | with the corrected grandchild merge, no file content is lost or created |
| UnifileRglob.PathInside | build/lib/unifile/unifile.py:206-267 | for items below the top, when cleaned names have no slash and are not `..`, nothing outside the top changes |
| UnifileSrc.Validate | src/unifile/unifile.py:92-97 | TypeError for `None`, ValueError for a falsy or missing path; no permission check |
| UnifileSrc.ValidateWithoutAccess | src/unifile/unifile.py:92-97 | the same checks as the packaged copy with access granted |
| UnifileSrc.RenameEntry | src/unifile/unifile.py:110-114 | proved equal to `RenameEntryRun`: `os.rename` straight onto `root/clean(name)`, the OSError logged |
| UnifileSrc.RenameEntryRecord | src/unifile/unifile.py:110-114 | one record: `Renamed` exactly when POSIX allows the rename, which then happens, `Failed` exactly otherwise, with nothing changed |
| UnifileSrc.ProcessEntry | src/unifile/unifile.py:102-129 | proved equal to `EntryRun`: ValueError for a bad mode, nothing for a name cleaning leaves alone, a proposal in a dry run, else the rename |
| UnifileSrc.ProcessNames | src/unifile/unifile.py:102-129 | proved equal to `NamesRun`: the names of one kind in order |
| UnifileSrc.ProcessStep | src/unifile/unifile.py:100-129 | proved equal to `StepRun`: files, then directories |
| UnifileSrc.ProcessSteps | src/unifile/unifile.py:100-129 | proved equal to `StepsRun`: the steps of the walk in order |
| UnifileSrc.ProcessDirectory | src/unifile/unifile.py:73-129 | the checks first, with no change when they fail; then a bottom-up walk of the tree as it is, proved equal to `StepsRun` over it; no content is created; nothing outside the top changes when cleaned names stay in their directory |
| UnifileSrc.StepsShrink | src/unifile/unifile.py:100-129 | whatever a run does, no file content is created (it can be lost: `SrcFileClobbered`) |
| UnifileSrc.StepsInside | src/unifile/unifile.py:100-129 | over a bottom-up walk below the top, when cleaned names have no slash and are not `..`, nothing outside the top changes |
| UnifileSrc.StepsDryRun | src/unifile/unifile.py:100-123 | a dry run with a valid mode changes nothing, returns normally and logs exactly the walk's proposals |
| UnifileSrc.StepsInvalid | src/unifile/unifile.py:100-104 | an invalid mode raises ValueError, with no change and no record, exactly when some step lists a name |
| UnifileSrc.StepsClean | src/unifile/unifile.py:105 | at the tests of lines 105 and 120: when cleaning leaves every listed name alone, nothing is renamed or logged |
| UnifileSrc.StepsAnswer | src/unifile/unifile.py:100-129 | a real run with a valid mode returns normally and logs, in order, one record per dry-run proposal: the entry renamed onto the proposed path, or a failure for it |
| UnifileSrc.SrcFileClobbered | src/unifile/unifile.py:110-111 | renaming a file onto an existing file of its cleaned name succeeds and destroys the existing content |
| UnifileSrc.SrcFileClobberedExample | src/unifile/unifile.py:110-111 | `tést.txt` beside `test.txt` in `ascii` mode: the content of `test.txt` is lost |
| Utf8fixRewrite.Validate | src/utf8fix/utf8fix.py:22-31 | TypeError for `None`, ValueError for falsy, TypeError for a non-path object, ValueError for a missing path or a non-directory, in that order |
| Utf8fixRewrite.ProcessName | src/utf8fix/utf8fix.py:36-47 | proved equal to `EntryRun`: nothing for a name cleaning leaves alone, a proposal in a dry run, else one `os.rename` whose failure is logged |
| Utf8fixRewrite.ProcessNames | src/utf8fix/utf8fix.py:35-47 | proved equal to `NamesRun`: the names in order, no failure stopping the loop |
| Utf8fixRewrite.RunPass | src/utf8fix/utf8fix.py:34-63 | proved equal to `PassRun`: the names of one kind of every step of a walk |
| Utf8fixRewrite.ProcessDirectory | src/utf8fix/utf8fix.py:19-63 | the checks first, with no change when they fail; then always returns normally: directories over a bottom-up walk of the tree, then files over a top-down walk of the tree the first pass left, proved equal to `TwoPassRun`; no content is created; nothing outside the top changes when cleaned names stay in their directory |
| Utf8fixRewrite.PassShrinks | src/utf8fix/utf8fix.py:33-63 | whatever a pass does, no file content is created |
| Utf8fixRewrite.PassInside | src/utf8fix/utf8fix.py:33-63 | a pass over steps below the top, when cleaned names have no slash and are not `..`, changes nothing outside the top |
| Utf8fixRewrite.TwoPassDryRun | src/utf8fix/utf8fix.py:33-63 | a dry run changes nothing and logs the directory proposals of the first walk, then the file proposals of the second |
| Utf8fixRewrite.PassClean | src/utf8fix/utf8fix.py:38 | at the tests of lines 38 and 54: a pass over names cleaning leaves alone renames nothing and logs nothing |
| Utf8fixRewrite.PassAnyMode | src/utf8fix/utf8fix.py:11 | any mode other than `ascii` behaves as `preserve`; the mode is never checked |
| Utf8fixRewrite.TwoPassAnswer | src/utf8fix/utf8fix.py:33-63 | a real run returns normally and logs, in order, one record per proposal of a dry run over the same two walks: the entry renamed onto the proposed path, or a failure for it |

## Left out

- NFKD decomposition and `unicodedata.combining` are not tabulated: they are the parameter `fold`, required only to leave ASCII alone and to give no control character for a non-ASCII one (`Nfkd.FoldOk`, met by `Nfkd.SampleFold`). Per character is exact here, because the marks that canonical reordering moves are all dropped afterwards.
- Names are Dafny strings of Unicode scalar values. `os.walk` hands over undecodable bytes of a name as lone surrogates U+DC80–U+DCFF (`surrogateescape`), which a Dafny `char` cannot hold; names carrying such bytes, the very names an encoding fixer exists for, are not modelled.
- The command line, `setup_logging`, `main` and the text of log messages are not modelled; the log is a sequence of abstract records.
- `os.access` is the boolean `accessOk` of `UnifileBuild.ProcessDirectory`.
- The order of `os.listdir` and `iterdir` is a function of the directory's set of names (`Fs.OrderOk`: each name once, all of them), not of the directory's history.
- The walks are taken whole before the loop over them runs, from the tree as it is (`Walk.IsWalk`). `os.walk(topdown=False)` is lazy but reads every directory below one before yielding it, and, when cleaned names stay in their directory, a bottom-up run renames only inside the directory it is at, so this is what the loop sees.
- The copy fallback of `shutil.move` is left out. `shutil.move` falls back to copying whenever `os.rename` raises an OSError, not only across devices; the model has one device, and its `Move` is `os.rename` onto the chosen target.
- UnifileRglob.RenameItem, UnifileRglob.ProcessItem, UnifileRglob.ProcessPath: the directory branch (build/lib/unifile/unifile.py line 262) renames with `shutil.move`, whose fallback for a directory is `copytree`, which creates missing parents with `os.makedirs`, then `rmtree` of the source. The model renames with `os.rename` semantics (`UnifileBuild.RenameDirRun`), so where the target's parent is missing it logs `Failed` and changes nothing, while the source creates the parents, moves the content there and logs the rename. This needs a cleaned name holding a slash, so it arises only in `ascii` mode: a directory `a／b` with no `a` beside it becomes `a/b` in the source. For files the fallback (`copy2`) fails the same way `os.rename` does.
- Case-insensitive file systems and symbolic links are left out: rename follows POSIX, where a file renamed onto a file replaces it and a directory renamed onto an empty directory replaces it.
- `process_path` iterates `rglob('*')` lazily while it renames; the model takes the items it yields as a given sequence, and `UnifileRglob.PathDryRunExact` assumes that sequence lists every entry below the path.
- Utf8fixRewrite.ProcessDirectory: the second walk of `src/utf8fix/utf8fix.py` (line 50) is lazy and top-down; the model takes it whole from the tree the first pass left. That is what the lazy walk sees when cleaned names stay in their directory (`CleanStaysIn`), since renaming a file in place changes no listing still to be read. In `ascii` mode a file pass can rename `a／b` to `a/b`, into a subdirectory `a` the walk has not listed yet; the source's walk then lists `b` there, and the model's second walk does not.
- A `directory` argument is `None`, the empty string, a path or some other object; the finer points of `str`, `bytes` and `os.PathLike` values are not modelled.
- The tests of `src/utf8fix/utf8fix.py` expect results the code does not produce (`tests/test_utf8fix.py`, lines 31, 35-36 and 49, and a PermissionError at lines 66-72); the model follows the code.
- UnifileRglob.RenameItem: the file branch uses `os.rename` where the source calls `shutil.move`; onto the free target the loop has found, the two are the same (`Fs.MoveToFree`).
- UnifileBuild.ProcessDirectory, UnifileBuild.RenameDir, UnifileBuild.Merge, UnifileBuild.MergeItem, UnifileRglob.ProcessPath, UnifileRglob.RenameItem: these run the corrected grandchild merge (`UnifileBuild.MergeChild`), so their "no content lost" holds with the corrected grandchild merge only. As written (build/lib/unifile/unifile.py lines 160-161 and 253-254) the source moves each grandchild `s/n` to `d/n` unchecked: a file there is overwritten and its content lost (`UnifileBuild.MergeChildAsWrittenLoses`), and a directory there receives the grandchild nested as `d/n/n`, or the move raises when that exists too. The correction moves a clashing grandchild, file or directory, to the first free `d/{base}-{k}{ext}`.
- Fs.Join, UnifileBuild.RenameFile, UnifileBuild.RenameDir, UnifileSrc.RenameEntry, Utf8fixRewrite.ProcessName, UnifileRglob.RenameItem: path resolution is lexical, not the operating system's (`UnifileRglob.RenameItem`'s target `item.parent / new_name` keeps a `..` in pathlib, which the operating system resolves). A trailing `/` is dropped, where the operating system requires a directory there (`os.rename` raises ENOTDIR onto a file `a`, and `os.path.exists('a/')` is False for a file); and `..` cancels the part before it even when that part is missing or not a directory, where the operating system raises ENOENT or ENOTDIR. So in `ascii` mode, for a name NFKD turns into one holding `/` (U+FF0F), the model may rename, merge or overwrite where the source logs an OSError: an empty directory `a／` beside a file `a` is merged into `a` and removed, a file `a／` with no `a` is renamed to `a`, a file `a／` beside a file `a` overwrites it. Outside `ascii` mode cleaned names never hold a slash or equal `..` (`CleanStaysInUnlessAscii`), so the difference does not arise.
- UnifileBuild.ProcessDirectory, UnifileSrc.ProcessDirectory, Utf8fixRewrite.ProcessDirectory, UnifileRglob.ProcessPath (through `UnifileRglob.PathInside`): "nothing outside the top changes" is proved only when every plain name cleans to a name without a slash, other than `..` (`CleanStaysIn`). Outside `ascii` mode this always holds (`CleanStaysInUnlessAscii`); in `ascii` mode NFKD can give a slash (`UnifileClean.AsciiMayLeave`), and then `Fs.Join` resolves the new name lexically, so the rename or merge can reach outside the top.
- UnifileSrc.ProcessDirectory: states that no content is created (`FileData` can only shrink), not that none is lost, because the code can lose content: on POSIX, `os.rename` of `tést.txt` onto an existing `test.txt` overwrites it (`UnifileSrc.SrcFileClobbered`), although its docstring promises to preserve file content (line 88). The model follows the code.
- Utf8fixRewrite.ProcessDirectory: states that no content is created, for the same reason as `UnifileSrc.ProcessDirectory`, since it renames the same way.
- `setup.py` and packaging are not part of this model.

## Findings

| source | as written | input that shows it | evidently intended | confidence | as-written member | corrected member |
|---|---|---|---|---|---|---|
| build/lib/unifile/unifile.py:160-161 | when a clashing subdirectory is merged, each of its entries is moved to the same name in the existing subdirectory with no collision check, so on POSIX a file there is overwritten (`process_path` does the same at lines 253-254) | `tést/a/x.txt` and `test/a/x.txt` in `ascii` mode: the content of `test/a/x.txt` is lost | move a clashing grandchild to the first free `{base}-{n}{ext}`, as a clashing child is one level up (lines 146-155), so no content is lost ("Preserves file content", line 90) | not executed | UnifileBuild.MergeChildAsWritten | UnifileBuild.MergeChild |
