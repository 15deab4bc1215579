# ttree: the directory walk and its summaries, in Dafny

`ttree` prints a directory as an indented tree, like the classic `tree`
command, with one difference. A directory with more subdirectories or files
than a limit gets a single line instead of a full listing:
- too many subdirectories become a count ("3 directories");
- too many files become a type summary ("README, 2 py files").

This project models the core of `src/ttree/cli.py`:

- **`get_file_type`** is modelled in module `FileTypes`. It finds the
  extension the way `pathlib` finds a suffix up to CPython 3.13: the
  last dot, when that dot is neither the first nor the last character. It lower-cases the extension and
  drops the dot. A name without one gets the sentinel "no extension".
- **`summarize_types`** is modelled in module `Summary`. The files are sorted
  by name and then counted per extension. A file whose extension occurs
  once is named. An extension shared by several files is shown once with its
  count, most frequent first, ties broken by extension. The noun "file" or
  "files" closes the line, and "0 files" stands for an empty input. The
  branch that returns the noun alone (cli.py:130-131) cannot be reached: any
  non-empty input has at least one part (`Summary.PartsNonEmpty`).
- **`build_tree`** is modelled in module `Crawl`:
  - The walk runs over an abstract file system: a map from directory
    identity (`st_ino`, `st_dev`) to that directory's listing, or to a
    permission failure.
  - Each entry carries the answers the walk gets about it: the `is_dir` and
    `is_file` probes, which may fail; the `is_symlink` answer, a plain
    boolean; its `readlink` target; and its identity.
  - The functions `WalkDir`, `DirSection`, `VisitDir` and `WalkSubdirs` state
    what a walk produces. A `Walk` value records the lines added, the visited
    identities afterwards, and what is added to the directory and file
    counters.
  - The method `BuildTree` does the same work step by step. It appends to a
    mutable `Branch`, records identities in a mutable `IdentitySet`, and adds
    to a mutable `CrawlStats`. Its phases (`ListDir`, `Scan`, `Classify`,
    `AddDirs`, `AddSubdirs`, `AddSubdir`, `AddBranch`, `AddFiles`) are each
    proved against the matching function.
- **`update_status`**: its spinner text is `Crawl.StatusLine`.
- **`CrawlStats`** is the class `Crawl.CrawlStats`.

Rich console markup becomes a sequence of styled spans (module `Labels`).
`PlainText` joins the spans' texts. For names and link targets that hold no
markup tag, that is the text a terminal without colour shows, and the text
the source's tests compare.

Module `Sorting` holds the generic pieces:
- Python's string order, proved a total order;
- a stable insertion sort, proved sorted, a permutation, and unique;
- the order-keeping filter behind the list comprehensions.

`CrawlProps` holds the properties of the walk. `CrawlExamples` holds the
walks of the source's crawl tests.

Two classification rules follow the code:
- An entry that is neither a directory, a regular file nor a symlink is
  dropped (cli.py:195-199). Examples are a socket, a fifo or a device whose
  `is_file` answers without error. It is not listed as a file.
- Every symlink that is not a directory is a file, whether its target
  resolves or not.

## Model

| member | source | states |
|---|---|---|
| Sorting.StrLeIsTotalOrder | src/ttree/cli.py:113 | Python's ordering of `str` values, by which every name sort runs, is total, transitive and antisymmetric |
| Sorting.Sort | src/ttree/cli.py:201-202 | the sort's result is ordered by the key order and is a permutation of its input |
| Sorting.SortedUnique | src/ttree/cli.py:201-202 | two sequences sorted by the same antisymmetric order with the same elements are equal, so a sorted view is determined by its contents |
| Sorting.SortKeepsSorted | src/ttree/cli.py:201-202 | sorting an already sorted list leaves it unchanged, ties included |
| Sorting.FilterMembers | src/ttree/cli.py:179 | a comprehension with a condition keeps exactly the elements that pass the condition |
| Sorting.FilterSorted | src/ttree/cli.py:117-119 | filtering a sorted list keeps it sorted |
| Labels.Join | src/ttree/cli.py:133 | `", ".join(parts)` puts the parts at the even positions and the separator between neighbours |
| Labels.PlainTextOfJoin | src/ttree/cli.py:133 | stripping the markup from joined parts joins their texts |
| Labels.CountNoun | src/ttree/cli.py:128 | the singular noun is chosen exactly when the count is 1, and otherwise the plural |
| Labels.Decimal | src/ttree/cli.py:125 | `str(n)` is a non-empty digit string with no leading zero except for 0 itself |
| Labels.DecimalRoundTrip | src/ttree/cli.py:125 | reading back the decimal numeral of a count gives the count |
| Labels.CountPhraseInjective | src/ttree/cli.py:250-251 | a "count noun" phrase determines its count: different counts never read the same |
| FileTypes.Lower | src/ttree/cli.py:94 | `str.lower()` on ASCII letters: same length, each character lower-cased in place |
| FileTypes.Suffix | src/ttree/cli.py:93-94 | `PurePath.suffix`: empty or starting at the suffix dot; `FileTypeSpec` states the rule in both directions |
| FileTypes.FileType | src/ttree/cli.py:88-98 | `get_file_type`; `FileTypeSpec` pins it down: the lower-cased text after the suffix dot, or "no extension" when there is none |
| FileTypes.LastDot | src/ttree/cli.py:93-94 | the index of the last dot in the name, or -1 when there is none |
| FileTypes.FileTypeSpec | src/ttree/cli.py:88-98 | when the name has a suffix dot (not the first or last character, no dot after it), the type is the lower-cased text after that dot; otherwise it is "no extension" |
| FileTypes.ExtensionShape | src/ttree/cli.py:93-96 | a found extension is non-empty, holds no dot and has no ASCII upper-case letter |
| FileTypes.FileTypeIgnoresCase | src/ttree/cli.py:94 | lower-casing the name first does not change its type |
| FileTypes.FileTypeWithoutDot | src/ttree/cli.py:95-98 | a name without a dot has type "no extension" |
| FileTypes.FileTypeExamples | tests/test_cli.py:60-76 | "notes.md" has type "md", "archive.tar.gz" has "gz", "LICENSE" has "no extension", and "b.PY" has "py" |
| Summary.SortedNames | src/ttree/cli.py:112-113 | the names in ascending code-point order, a permutation of the input |
| Summary.Distinct | src/ttree/cli.py:115 | the keys of the counter: each extension that occurs, once each |
| Summary.CountsPermutation | src/ttree/cli.py:112-115 | reordering the files does not change how often each extension occurs |
| Summary.CountsPositive | src/ttree/cli.py:115 | an extension has a positive count exactly when some file has it |
| Summary.CountsTotal | src/ttree/cli.py:128 | the counts add up to the number of files, which decides the closing noun |
| Summary.Singletons | src/ttree/cli.py:117-119 | the named files are exactly the files whose extension occurs once, in ascending name order, with no repeats |
| Summary.SingletonsUnique | src/ttree/cli.py:117-119 | no other sequence has those three properties |
| Summary.GroupedTypes | src/ttree/cli.py:120-125 | the grouped extensions are exactly those with count above 1, each once, ordered by the key `(-count, ext)` |
| Summary.GroupsOf | src/ttree/cli.py:120-125 | the grouping loop over the counter's keys gives exactly the repeated extensions, once each, in group order |
| Summary.GroupOrderIsTotal | src/ttree/cli.py:121 | the key `(-count, ext)` orders extensions totally and antisymmetrically |
| Summary.GroupedTypesOrder | src/ttree/cli.py:121 | between any two groups, the earlier has the higher count, or the same count and the smaller extension |
| Summary.GroupedTypesUnique | src/ttree/cli.py:120-125 | no other sequence is the repeated extensions, each once, in group order |
| Summary.CountsAddUp | src/ttree/cli.py:115-127 | the named files plus the counts of the groups account for every file exactly once |
| Summary.PartsOf | src/ttree/cli.py:127 | the parts are the named files in `file` style, then the groups as "count ext" in `summary` style |
| Summary.SummaryParts | src/ttree/cli.py:117-127 | `singletons + grouped`; `PartsNonEmpty` shows it is never empty for files, and `SummaryLayout` gives its order |
| Summary.PartsNonEmpty | src/ttree/cli.py:127-131 | a non-empty input always has a part, so the noun-only branch is unreachable |
| Summary.Render | src/ttree/cli.py:130-133 | the parts sit at the even positions with ", " between neighbours, then a space and the noun; without parts the result is the noun alone |
| Summary.SummarizeTypes | src/ttree/cli.py:101-133 | no files give "0 files"; otherwise the line closes with "file" exactly when there is one file and "files" otherwise |
| Summary.SummaryLayout | src/ttree/cli.py:117-133 | the named files come first in name order, then each group with its count, separated by ", " |
| Summary.SummarySpans | src/ttree/cli.py:117-133 | every span of a summary is a named file, a group count, a separator or the noun |
| Summary.FileSpansNameInputs | src/ttree/cli.py:117-118 | every name shown in `file` style is one of the summarized files |
| Summary.SharedTypeNeverNamed | src/ttree/cli.py:105-106 | a file whose extension is shared with another file is never named |
| Summary.UniqueTypeNamed | src/ttree/cli.py:105 | a file whose extension is its own is always named |
| Summary.SharedTypeCounted | src/ttree/cli.py:120-125 | every shared extension appears as "count ext" with its exact count |
| Summary.RenderPlainText | src/ttree/cli.py:133 | the plain text of a rendering is the part texts joined by ", ", a space and the noun |
| Summary.SummaryPlainText | src/ttree/cli.py:127-133 | the plain text of a non-empty summary is its parts joined by ", ", a space, and the noun agreeing with the file count |
| Summary.SummaryIgnoresOrder | src/ttree/cli.py:112-113 | the summary does not depend on the order in which the files arrive |
| Summary.MixedTypesExample | tests/test_cli.py:66-76 | a.py, b.PY, c.txt and README summarize as "README, c.txt, 2 py files", with those styles |
| Summary.AllUniqueExample | tests/test_cli.py:112-125 | four different extensions: all four files named in name order, nothing counted, then "files" |
| Summary.LimitExample | tests/test_cli.py:95-109 | README, alpha.py and beta.PY summarize as "README, 2 py files" |
| Crawl.Visible | src/ttree/cli.py:176-179 | with `show_all` every entry is kept; without it exactly the entries whose name does not start with a dot |
| Crawl.KindOf | src/ttree/cli.py:187-199 | the kind of one entry; `KindProbes` and `ClassifyPartition` pin it to the probe answers |
| Crawl.KindProbes | src/ttree/cli.py:187-199 | an entry is a directory exactly when `is_dir` answers yes, and a file exactly when it is not a directory and `is_file` answers yes or fails, or the entry is a symlink |
| Crawl.Classify | src/ttree/cli.py:184-199 | the loop sends each entry, in order, to `dirs`, to `files` or nowhere, matching `KindOf` |
| Crawl.ClassifyPartition | src/ttree/cli.py:187-199 | every entry is exactly one of directory, file or dropped; a symlink or an entry whose file probe fails is never dropped |
| Crawl.SortByName | src/ttree/cli.py:201-202 | the entries ordered by raw name, a permutation of the input |
| Crawl.SectionsOf | src/ttree/cli.py:176-202 | the dirs and files are sorted by name and hold exactly the visible entries of their kind |
| Crawl.EntryLabelText | src/ttree/cli.py:214-220 | a line shows the name; for a symlink it adds " -> " and the target, or "?" when the target cannot be read (also lines 259-266) |
| Crawl.Names | src/ttree/cli.py:112 | the names of the entries, in order, as the summary reads them |
| Crawl.ListingOf | src/ttree/cli.py:174-182 | the listing of a directory, or a permission failure when its identity is unknown or not in the file system; `WalkDir` turns the failure into the single "permission denied" line |
| Crawl.LinkSuffix | src/ttree/cli.py:214-220 | nothing for a plain entry, " -> target" for a readable symlink, " -> ?" in `error` style otherwise (also lines 259-266); `EntryLabelText` states the texts |
| Crawl.DirLabel | src/ttree/cli.py:213-220 | a subdirectory's line: its name in `dir` style plus the link suffix; `EntryLabelText` states its text |
| Crawl.FileLabel | src/ttree/cli.py:258-266 | a file's line: its name in `file` style plus the link suffix; `EntryLabelText` states its text |
| Crawl.DirCountLabel | src/ttree/cli.py:250-251 | the "N directories" line, "directory" when N is 1; `CountPhraseInjective` shows it determines N and `ThreeDirsText` gives an instance |
| Crawl.FileSection | src/ttree/cli.py:253-269 | the file lines; `FileSectionLines` shows they are none, one leaf per file with its label, or one summary leaf past the limit |
| Crawl.DirSection | src/ttree/cli.py:210-251 | the directory lines: never forgets a visited identity; `WalkDirLayout` shows they are none, one per subdirectory, or one count line past the limit |
| Crawl.WalkSubdirs | src/ttree/cli.py:213-248 | the subdirectory walks in order, each seeing the identities visited before it, which only grow; `WalkSubdirsLines` and `SameIdentityOnce` state the lines |
| Crawl.WalkDir | src/ttree/cli.py:166-182 | the directory's own identity is marked visited; a directory that cannot be listed gets the single line "permission denied" and counts nothing |
| Crawl.VisitDir | src/ttree/cli.py:222-236 | every subdirectory gives exactly one line with its label; one whose identity was already visited gives a bare line and no descent |
| Crawl.CrawlStats.constructor | src/ttree/cli.py:82-85 | the counters start at zero |
| Crawl.CrawlStats.Count | src/ttree/cli.py:204-206 | adds the number of dirs and files of one listing to the running totals |
| Crawl.IdentitySet.constructor | src/ttree/cli.py:166-167 | the walk from the root starts with no identity visited |
| Crawl.IdentitySet.AddKnown | src/ttree/cli.py:168-172 | a known identity is recorded and an unknown one changes nothing (also lines 224-236) |
| Crawl.Branch.Add | src/ttree/cli.py:222 | appends one line as the last child |
| Crawl.BuildTreeFromRoot | src/ttree/cli.py:150-170 | a walk without a `seen` set appends exactly `WalkDir`'s lines from an empty visited set and adds its counts |
| Crawl.BuildTree | src/ttree/cli.py:150-269 | appends exactly the lines `WalkDir` specifies, leaves the visited set as `WalkDir` ends it, and adds `WalkDir`'s counts to the stats |
| Crawl.ListDir | src/ttree/cli.py:184-269 | after a successful listing: counts, then directory lines, then file lines, as `WalkDir` specifies |
| Crawl.Scan | src/ttree/cli.py:174-202 | the visible directories and files of a listing, each sorted by name |
| Crawl.AddDirs | src/ttree/cli.py:210-251 | appends `DirSection`'s lines: nothing, one walk per subdirectory, or one count line past the limit |
| Crawl.AddSubdirs | src/ttree/cli.py:213-248 | walks the subdirectories in order, each seeing the identities visited before it, as `WalkSubdirs` specifies |
| Crawl.AddSubdir | src/ttree/cli.py:214-236 | one subdirectory as `VisitDir` specifies: a bare line when its identity was already visited |
| Crawl.AddBranch | src/ttree/cli.py:222-248 | an unvisited subdirectory is marked visited and walked into its own branch |
| Crawl.AddFiles | src/ttree/cli.py:253-269 | appends `FileSection`'s lines: none, one per file, or one summary line past the limit |
| CrawlProps.WalkSubdirsLines | src/ttree/cli.py:213-222 | one line per subdirectory, in order, each labelled with that subdirectory |
| CrawlProps.WalkDirLayout | src/ttree/cli.py:204-269 | both counters grow by at least the listing's dirs and files; past the dir limit there is one count line, then the file lines, and nothing below is walked; otherwise one line per subdirectory, then the file lines |
| CrawlProps.FileSectionLines | src/ttree/cli.py:253-269 | file lines have no children; past the limit there is one summary line, otherwise one line per file showing its name and link target |
| CrawlProps.VisitDirMarks | src/ttree/cli.py:235-236 | a subdirectory's identity is marked visited after its line |
| CrawlProps.VisitedIsBare | src/ttree/cli.py:231-233 | a subdirectory whose identity was visited before the loop gets a bare line |
| CrawlProps.SameIdentityOnce | src/ttree/cli.py:224-236 | of two subdirectories with the same identity, the later one is a bare line, so a directory reached twice is expanded at most once |
| CrawlProps.WalkDirNoDot | src/ttree/cli.py:176-179 | without `show_all`, no line at any depth names an entry whose name starts with a dot |
| CrawlProps.SummaryNoDot | src/ttree/cli.py:117-118 | a summary of names without a leading dot names no dotfile |
| CrawlProps.SectionsNoDot | src/ttree/cli.py:176-179 | without `show_all` neither dirs nor files hold a dotfile |
| Crawl.StatusLine | src/ttree/cli.py:136-147 | the spinner text; `StatusLineInjective` and `InitialStatus` pin it down |
| Crawl.StatusCounts | src/ttree/cli.py:140-147 | the "(d directories, f files)" part, each noun agreeing with its count; `StatusCountsInjective` shows it determines both counts |
| CrawlProps.StatusCountsInjective | src/ttree/cli.py:140-146 | the counts part of the spinner text determines both counts |
| CrawlProps.StatusLineInjective | src/ttree/cli.py:136-147 | different running counts never show the same spinner text |
| CrawlProps.InitialStatus | src/ttree/cli.py:346-347 | the spinner text for zero counts is "Scanning root... (0 directories, 0 files)", the text shown before the walk starts |
| CrawlExamples.HiddenSkipped | tests/test_cli.py:128-139 | a directory holding only `.hidden.txt` shows nothing without `show_all` |
| CrawlExamples.HiddenShown | tests/test_cli.py:141-149 | with `show_all` the same directory shows `.hidden.txt` and counts one file |
| CrawlExamples.ThreeDirsCounted | tests/test_cli.py:79-92 | three subdirectories with at most two to list give one count line; all three are counted and none is entered |
| CrawlExamples.ThreeDirsText | tests/test_cli.py:92 | that line reads "3 directories" |
| CrawlExamples.DeniedExample | tests/test_cli.py:152-171 | an unreadable directory gives the single line "permission denied" |
| CrawlExamples.FilesSummarized | tests/test_cli.py:95-109 | three files with at most one to list give the single summary line of README, alpha.py and beta.PY, and all three are counted |
| CrawlExamples.SymlinkFollowedOnce | tests/test_symlinks.py:55-77 | `link` sorts first and is expanded with `inner.txt`; `real`, the same directory, is then a bare line |
| CrawlExamples.LinkLineText | tests/test_symlinks.py:76 | the link's line reads "link -> " followed by its target |
| CrawlExamples.FileSymlinkShown | tests/test_symlinks.py:24-52 | a file and a symlink to it are both listed as files, the link first by name |
| CrawlExamples.FileSymlinkText | tests/test_symlinks.py:47-52 | the lines read "link.txt -> " plus the target, and "real.txt" |

## Left out

- Output and the console: the tree is built as values, never printed. Colour, the theme and `configure_console` are not modelled.
- `main` (the Typer command, path checks, the display root, the `--version` flag) and `main.py` (the root-level wrapper) are not part of this model. Only the spinner's first text (`CrawlProps.InitialStatus`) and the fresh stats are taken from it.
- `update_status` as a side effect: the model states the spinner text (`Crawl.StatusLine`) but has no spinner. The walk does not call it, and the `status is None` early return has nothing to model.
- Crawl.BuildTree: always receives a `CrawlStats`, as `main` passes one. The `stats=None` default, which skips counting, is not modelled. Counting never changes the tree.
- Crawl.CrawlStats: the counters are unbounded naturals; Python's integers do not overflow either.
- Crawl.ListingOf: a directory whose identity cannot be read, or is not in the file system map, is treated as unreadable ("permission denied"). The source would call `os.scandir` on it, and any error other than `PermissionError` would propagate out of `build_tree`. Such errors are not modelled. This is also the one place where the source's recursion is not bounded by `seen`: a subdirectory whose `os.stat` fails (cli.py:224-238) is walked without any `seen` check, while the model gives it the single "permission denied" line.
- An `is_symlink()` call that raises is not modelled; the symlink answer is a plain boolean. At cli.py:215 and cli.py:259 the call sits outside any `try`, so a raise there would end the walk. At cli.py:196 it sits inside the `try`, where a raise would put the entry among the files.
- Names and link targets are assumed to hold no Rich markup tag. The source writes them into markup unescaped (cli.py:118, 214, 218, 262, 264, 266), so Rich would read a name such as `notes[draft].txt` as `notes.txt` with a style tag, and a name such as `x[/y]` would make rendering fail. The model keeps the raw text.
- The file system is a map from identity to listing. A listing does not change during the walk, and paths are not modelled: two entries with the same identity are the same directory.
- Names that Python holds with lone surrogate code points (the surrogate escapes `os.scandir` uses for bytes not valid in the file system encoding) are outside the model: a Dafny string holds Unicode scalar values only. Every other name is modelled as is.
- FileTypes.Lower: lower-cases ASCII letters only. Python's `str.lower` also folds other scripts; those names keep their case here.
- FileTypes.Suffix: names are single path components without `/`, as `os.scandir` gives them.
- Crawl.SortByName: a stable insertion sort on values, proved sorted and a permutation. It is not Timsort, but any stable sort gives the same sequence.
- Rich's `Tree`: a node is a label and its ordered children. `AddBranch` fills a new branch and then appends it; the source appends it first and fills it in place through the returned handle. The resulting tree is the same.
- Crawl.BuildTree: the ghost `bound` parameter only serves the termination proof. It does not appear in the source.
