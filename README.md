# Disc packing and disk indexing utilities, modelled in Dafny

This project models three utilities for preparing and indexing media archives.

- **`utils/disc_packer.py`** splits a set of files over optical discs with
  First-Fit-Decreasing (FFD: files sorted largest-first, each placed in the
  first disc with enough room).
  - A `Bin` is one disc; it tracks `used` and its `files`.
  - `try_add` charges each file its size plus a per-file overhead against the
    effective capacity, which is the capacity minus a safety reserve.
  - The capacity comes from a media profile, a custom amount in a unit, or the
    dvd5 default.
  - The result is written as a CSV manifest and staged as
    `disc_NNN/<file name>` links.
- **`utils/ascii2tsv.py`** turns a boxed ASCII table into Media/File/Size/Date
  records. Each record spans two rows: a first row, and a continuation row
  with an empty first cell that carries the size unit and the time.
- **`utils/scandisk.py`** counts the audio, video, image and other files of
  each top-level folder of a disk. It then rewrites an existing HTML index:
  - the rows of that disk are replaced by fresh ones;
  - the fresh rows go just before every `</tbody>` line.

The modules follow the scripts:

- `Packing` holds the packer as values:
  - the bin accounting;
  - the stable largest-first sort;
  - one placement step and the whole plan;
  - everything proved about them.
- `DiscPacker` holds the imperative side, each method proved to compute the
  `Packing` value:
  - the `Bin` class and its `TryAdd`;
  - the `first_fit_decreasing` loop over `Bin` objects;
  - the CSV row order;
  - the staging destination names.
- `Capacity` holds `resolve_capacity` and the reserve.
- `AsciiTable` holds the line loop of the converter (`ConvertTable`) and two
  descriptions of it:
  - the same machine as a function (`RunFrom`);
  - an independent description of its output (`Paired`).
- `ScanDisk` holds:
  - the category table;
  - the counting loop;
  - the choice of items to scan;
  - the index rewrite.
- `Text` holds the Python string operations the scripts rely on.
- `Wrappers` holds `Option` and `Result`.

Floating-point values are modelled as exact `real`s:

- the custom capacity;
- the reserve percentage;
- `utilisation`.

Python's `int(x)` on them becomes truncation toward zero. The file system is
given to the model as data:

- the disk root;
- its entries;
- a map from each directory to the list its recursive walk returns;
- the lines of the index file.

## Model

| member | source | states |
|---|---|---|
| Packing.EffectiveCapacity | utils/disc_packer.py:81-83 | the effective capacity is at least capacity minus reserve, and is either 0 or exactly that difference |
| Packing.BinState.Utilisation | utils/disc_packer.py:89-93 | 0 for a bin of effective capacity 0; otherwise utilisation × effective capacity equals `used`; it lies in [0, 1] whenever 0 ≤ used ≤ effective capacity |
| Packing.BinState.Remaining | utils/disc_packer.py:85-87 | what remains plus `used` is the effective capacity; it is non-negative exactly when `used` is within the effective capacity |
| Packing.BinState.Accepts | utils/disc_packer.py:95-97 | a file is accepted exactly when, once it is added, `used` stays within the effective capacity |
| Packing.BinState.Add | utils/disc_packer.py:98-99 | the file is appended; index, capacity, reserve and effective capacity are kept; what remains shrinks by size + overhead |
| Packing.AddKeepsConsistent | utils/disc_packer.py:95-101 | a successful add keeps `used` equal to the footprint (size plus overhead summed over the files) and within the effective capacity; the file is appended and `used` grows by size + overhead |
| Packing.NewBinAcceptsIffWithinThreshold | utils/disc_packer.py:117-132 | a fresh bin accepts a file exactly when its size is at most the (corrected) too-big threshold |
| Packing.TooBigThreshold | utils/disc_packer.py:117-118 | the corrected threshold plus the overhead is the effective capacity |
| Packing.TooBigThresholdAsWritten | utils/disc_packer.py:118 | `max(0, effective capacity - overhead)`: the clamped threshold equals the corrected one whenever that is non-negative, and is 0 when the overhead exceeds the effective capacity; it is never negative and never below the corrected one |
| Packing.AsWrittenThresholdBreaksMustFit | utils/disc_packer.py:117-132 | with the clamped threshold as written, an empty file passes the threshold test while a fresh bin rejects it (capacity 100, reserve 0, overhead 200), so the "must fit" assertion fails |
| Packing.CorrectionOnlyAffectsAbortingCase | utils/disc_packer.py:117-132 | the corrected and as-written thresholds decide differently exactly for a 0-byte file when the overhead exceeds the effective capacity, where the source aborts |
| Packing.SortBySizeDescending | utils/disc_packer.py:112 | the processing order is largest-first and a permutation of the input |
| Packing.InsertBySizeSorted | utils/disc_packer.py:112 | inserting into a largest-first sequence keeps it largest-first and adds one element |
| Packing.InsertBySizePermutes | utils/disc_packer.py:112 | insertion adds exactly the inserted entry to the multiset |
| Packing.InsertKeepsSizeClasses | utils/disc_packer.py:112 | insertion puts the new entry in front of the entries of its own size and leaves other sizes' subsequences unchanged |
| Packing.SortIsStable | utils/disc_packer.py:112 | for every size, the entries of that size keep their input order (stability of `sorted`) |
| Packing.WithSizeMembers | utils/disc_packer.py:112 | an entry is in the size-k subsequence iff it is in the input and has size k |
| Packing.StableOrderIsUnique | utils/disc_packer.py:112 | two largest-first sequences with the same per-size subsequences are equal, so the processing order and the plan are determined by the input |
| Packing.FirstFit | utils/disc_packer.py:125-129 | the chosen bin accepts the file and no earlier bin does; the number of bins means none accepts it |
| Packing.FirstFitInto | utils/disc_packer.py:125-133 | at most one bin is added, and one is added exactly when no existing bin accepts the file; a new bin has the next index and holds only the file; the bins before the chosen one are unchanged |
| Packing.Place | utils/disc_packer.py:120-133 | a file above the threshold is appended to the skipped list and the bins are unchanged; any other file leaves the skipped list as it was; bins plus skipped files grow by at most one |
| Packing.PackInOrder | utils/disc_packer.py:120-134 | there are never more bins plus skipped files than input files |
| Packing.PackInOrderStep | utils/disc_packer.py:120-133 | processing one more file is one more placement step on the plan so far |
| Packing.PlaceIsFirstFit | utils/disc_packer.py:120-133 | a too-big file is appended to the skipped list with bins unchanged; otherwise it goes to the first accepting bin, or to a new bin, numbered one past the last, holding only it |
| Packing.AddKeepsWellFormed | utils/disc_packer.py:95-101 | adding an accepted file within the threshold keeps a bin well formed |
| Packing.PlaceKeepsWellFormed | utils/disc_packer.py:120-133 | one step keeps the plan well formed: bins numbered 1..n in creation order, same capacity and reserve, non-empty, `used` equal to the footprint and within effective capacity, files within the threshold, skipped files above it |
| Packing.PackInOrderWellFormed | utils/disc_packer.py:120-134 | every plan built by the loop is well formed (so the "must fit" step always succeeds) |
| Packing.PackedFilesAfterAdd | utils/disc_packer.py:127 | adding a file to one bin adds exactly that file to the multiset of packed files |
| Packing.PlaceContents | utils/disc_packer.py:120-133 | one step adds the file to packed ∪ skipped exactly once; it goes to skipped iff it is above the threshold |
| Packing.PlaceShape | utils/disc_packer.py:125-133 | one step changes at most one bin, by appending the file, or adds one bin holding only the file |
| Packing.PackInOrderPartition | utils/disc_packer.py:120-134 | packed files plus skipped files are exactly the input as a multiset, and the skipped list is the too-big files in processing order |
| Packing.PackInOrderThreshold | utils/disc_packer.py:117-124 | an input file is skipped iff its size exceeds the threshold, and packed iff it does not |
| Packing.PackedFilesWithinThreshold | utils/disc_packer.py:117-133 | every file in a well-formed bin is within the threshold |
| Packing.PackedComeFromInput | utils/disc_packer.py:120-134 | every file of every bin is one of the processed input files |
| Packing.PackSortedKeepsBinsSorted | utils/disc_packer.py:112-134 | with largest-first processing, every bin's files are largest-first |
| Packing.PlaceKeepsFirstFitOrdered | utils/disc_packer.py:125-133 | with a non-negative overhead, one step keeps the first-fit order: no file of a later bin fits into an earlier bin |
| Packing.PackInOrderFirstFitOrdered | utils/disc_packer.py:125-133 | with a non-negative overhead, the whole loop yields a first-fit-ordered plan |
| Packing.FootprintCoversEach | utils/disc_packer.py:96-99 | with a non-negative overhead, a bin's footprint covers each of its files' size + overhead |
| Packing.FootprintNonNegative | utils/disc_packer.py:96-99 | with a non-negative overhead, the footprint is non-negative |
| Packing.TwoBinsOverfillOne | utils/disc_packer.py:125-133 | with a non-negative overhead, any two bins together use more than one effective capacity, so at most one bin is half full or less |
| Packing.FirstFitDecreasingPlanCorrect | utils/disc_packer.py:105-134 | the plan is well formed, partitions the input, fills every bin largest-first and lists skipped files largest-first |
| Packing.FirstFitDecreasingPlan | utils/disc_packer.py:105-134 | the whole plan has no more bins plus skipped files than input files |
| Packing.TooBigKeepsOrder | utils/disc_packer.py:120-124 | the skipped files of a largest-first input are largest-first and come from it |
| DiscPacker.Bin.constructor | utils/disc_packer.py:73-79 | a new bin has the given index, capacity and reserve, nothing used and no files |
| DiscPacker.Bin.TryAdd | utils/disc_packer.py:95-101 | returns true iff size + overhead fits in what remains; then the file is appended and `used` grows by that amount, otherwise the bin is unchanged |
| DiscPacker.FirstFitDecreasing | utils/disc_packer.py:105-134 | returns fresh, distinct bin objects whose values and skipped list are exactly the FFD plan of the input |
| DiscPacker.PackFile | utils/disc_packer.py:119-133 | one turn of the loop: a file above the threshold is appended to the skipped list, any other is placed first-fit; the bin objects stay distinct, old ones are kept, new ones are fresh, and their values and the skipped list are the next `Place` step of the plan |
| DiscPacker.PlaceFile | utils/disc_packer.py:125-133 | trying the bins in order leaves them as the first-fit step prescribes; existing objects are kept and only a new one is added |
| DiscPacker.OpenBin | utils/disc_packer.py:130-133 | a new bin for a file within the threshold accepts it (the assertion holds) and holds just that file |
| DiscPacker.FirstFitStep | utils/disc_packer.py:125-133 | the placement step in terms of the first accepting bin, or a new bin with the next index |
| DiscPacker.BinRows | utils/disc_packer.py:234-235 | one row per file of the bin, in order, tagged with the bin's index, path and size |
| DiscPacker.ExportCsv | utils/disc_packer.py:229-235 | the rows are the header followed by each bin's file rows, bins in order |
| DiscPacker.FileRows | utils/disc_packer.py:233-235 | one row per packed file, none of them the header |
| DiscPacker.ManifestRows | utils/disc_packer.py:229-235 | the header first, then one row per packed file, with no second header |
| DiscPacker.WriteBinRows | utils/disc_packer.py:234-235 | the inner loop appends the bin's rows to what has been written |
| DiscPacker.BinRowsStep | utils/disc_packer.py:234-235 | one more file adds one more row at the end |
| DiscPacker.FileRowsStep | utils/disc_packer.py:233-235 | one more bin adds that bin's rows at the end |
| DiscPacker.FileRowsFollowPackedFiles | utils/disc_packer.py:233-235 | there is one file row per packed file, and row r names the r-th packed file (bin by bin) with its size |
| DiscPacker.FileRowPosition | utils/disc_packer.py:233-235 | file m of bin i is written at the bin's offset + m with that bin's index: rows are ordered by bin, then within the bin |
| DiscPacker.ManifestOmitsSkipped | utils/disc_packer.py:229-235 | the manifest is a header plus exactly one row per packed file, and no row names a skipped file |
| DiscPacker.PackedNotSkipped | utils/disc_packer.py:120-133 | in a well-formed plan no packed file is also skipped |
| DiscPacker.BaseNameAfterSlash | utils/disc_packer.py:187 | the file name of `dir/name` is `name` |
| DiscPacker.DiscDirName | utils/disc_packer.py:184 | `disc_` followed by digits whose value is the index, with no '/'; exactly 8 characters for an index below 1000 |
| DiscPacker.FirstDiscDirName | utils/disc_packer.py:184 | the first disc is staged in `disc_001` |
| DiscPacker.Destination | utils/disc_packer.py:184-187 | the destination keeps the file name of the source path |
| DiscPacker.DestinationsCollideIff | utils/disc_packer.py:183-187 | two destinations are equal iff the files are on the same disc and have the same file name |
| Text.BaseName | utils/disc_packer.py:187 | the file name is the suffix of the path after its last '/', and holds no '/' |
| Text.ZeroPaddedInt | utils/disc_packer.py:184 | `{index:03d}`: the digits of a non-negative index with value equal to it, a '-' before the digits of a negative one, never a '/'; the text is as wide as the width, or as the digits (and sign) when those are wider |
| Text.ZeroPaddedIntInjective | utils/disc_packer.py:184 | the `{index:03d}` rendering is injective |
| Text.FewDigits | utils/disc_packer.py:184 | a number below 10 has one digit, below 100 at most two, below 1000 at most three |
| Text.BaseNameOfPlainName | utils/scandisk.py:133 | a path without '/' is its own file name |
| Text.BaseNameChars | utils/scandisk.py:133 | every character of a file name comes from the path |
| Capacity.TruncateTowardZero | utils/disc_packer.py:284 | `int()` of a float: the integer part, with the truncation bounds for either sign |
| Capacity.ResolveCapacity | utils/disc_packer.py:280-288 | a given profile gives its listed capacity, else an unknown-profile error; otherwise a custom capacity gives the truncated amount × unit factor, else an unknown-unit error; with neither, 4 700 372 992 (dvd5) |
| Capacity.ListedChoicesResolve | utils/disc_packer.py:245-250 | with a listed profile or unit (the choices the command line enforces) resolution never fails |
| Capacity.ProfileTakesPrecedence | utils/disc_packer.py:281-282 | a given profile decides the capacity whatever custom amount and unit are given |
| Capacity.EmptyProfileIsAbsent | utils/disc_packer.py:281 | an empty profile string behaves like no profile |
| Capacity.ProfilesHoldAtLeastACd | utils/disc_packer.py:48-55 | every profile holds at least 700 000 000 bytes (a CD) |
| Capacity.WholeCustomCapacityIsExact | utils/disc_packer.py:283-284 | a whole amount of a listed unit resolves to exactly amount × factor bytes |
| Capacity.CastOfScaled | utils/disc_packer.py:57-65 | for each listed unit factor, scaling commutes with the int-to-real conversion |
| Capacity.ReserveBytes | utils/disc_packer.py:296 | a 0 percent reserve is 0 bytes; for a non-negative capacity and percentage the reserve is the integer part of capacity × percentage / 100; for a percentage in [0, 100] it lies between 0 and the capacity |
| Capacity.ReserveWithinCapacity | utils/disc_packer.py:296 | capacity × percentage / 100 lies in [0, capacity] |
| Capacity.DefaultReserveOnDvd5 | utils/disc_packer.py:253 | the default 2 % reserve on dvd5 is 94 007 459 bytes, leaving 4 606 365 533 |
| AsciiTable.Cells | utils/ascii2tsv.py:24 | at least one cell; every cell is stripped of whitespace and holds no '\|' |
| AsciiTable.StripIsInfix | utils/ascii2tsv.py:24 | stripping adds no characters |
| AsciiTable.Classify | utils/ascii2tsv.py:13-27 | a first row has a non-empty first cell and a continuation row an empty one |
| AsciiTable.Opened | utils/ascii2tsv.py:36-43 | the record takes media, size and date from cells 0, 2, 3 and the file from cell 1 with leading '/' removed |
| AsciiTable.Complete | utils/ascii2tsv.py:29-33 | media and file kept; the date gains " " + time; an empty unit keeps the size, otherwise the unit joins the size with one blank |
| AsciiTable.JoinedSize | utils/ascii2tsv.py:32 | stripping `size + " " + unit` of stripped parts gives the unit alone for an empty size, else the joined text |
| AsciiTable.Step | utils/ascii2tsv.py:13-43 | a border, rule, blank or heading line changes nothing; a line fails exactly when it is a first row, or a continuation with a record pending, with fewer than four cells; records already written are kept |
| AsciiTable.RunFrom | utils/ascii2tsv.py:12-43 | a successful run keeps the records already written as a prefix and adds at most one per line |
| AsciiTable.Convert | utils/ascii2tsv.py:11-43 | no lines give no records; a successful conversion gives at most one record per line |
| AsciiTable.Advance | utils/ascii2tsv.py:15-43 | one line adds at most one record and never changes those already written |
| AsciiTable.ConvertTable | utils/ascii2tsv.py:11-43 | the loop with `current` and `records` returns exactly the conversion `Convert` |
| AsciiTable.RunFromAppend | utils/ascii2tsv.py:12-43 | reading `a + b` is reading `a`, then `b` from the state `a` left |
| AsciiTable.ErrorIsFinal | utils/ascii2tsv.py:24-43 | once a row fails, later lines change nothing |
| AsciiTable.SkippedLinesAreInvisible | utils/ascii2tsv.py:15-21 | inserting a border, rule, blank or heading line anywhere leaves the output unchanged |
| AsciiTable.SkippedLineStep | utils/ascii2tsv.py:15-21 | a border, rule, blank or heading line in front of the rest is read as nothing |
| AsciiTable.AdvanceKeepsOutcome | utils/ascii2tsv.py:27-43 | a row with all four cells never fails, and every row that does not fail keeps the eventual output |
| AsciiTable.OpeningKeepsOutcome | utils/ascii2tsv.py:36-43 | a first row with four cells never fails, and a first row that does not fail keeps the eventual output |
| AsciiTable.ContinuationKeepsOutcome | utils/ascii2tsv.py:27-35 | a continuation row with four cells never fails, and a continuation that does not fail keeps the eventual output |
| AsciiTable.OpenDropsPending | utils/ascii2tsv.py:36-43 | a new first row replaces a pending record, which is never written |
| AsciiTable.CloseCompletesPending | utils/ascii2tsv.py:27-35 | a continuation after a first row writes the completed record and clears the pending one |
| AsciiTable.OrphanCloseIsIgnored | utils/ascii2tsv.py:28 | a continuation with nothing pending writes nothing |
| AsciiTable.RunFromOutcome | utils/ascii2tsv.py:12-43 | on a table whose content rows all have four cells the loop succeeds; whenever it succeeds, its records are those the outcome of the content rows predicts |
| AsciiTable.PendingAloneWritesNothing | utils/ascii2tsv.py:36-43 | a record still pending at the end is not written |
| AsciiTable.ConvertIsPaired | utils/ascii2tsv.py:11-43 | the conversion succeeds on a table whose content rows all have four cells; whenever it succeeds, the output is exactly one record for each first row directly followed by a continuation, in order |
| AsciiTable.ConvertFailsOnlyOnShortRows | utils/ascii2tsv.py:24-43 | the conversion fails only if some content row has fewer than four cells |
| AsciiTable.PairedUsesTwoParts | utils/ascii2tsv.py:27-43 | each record consumes two content rows |
| AsciiTable.AtMostOneRecordPerTwoLines | utils/ascii2tsv.py:11-43 | a successful conversion yields at most one record per two lines |
| AsciiTable.ShortOrphanRowIsAccepted | utils/ascii2tsv.py:24-28 | the one-line table made of a lone bar has a row with fewer than four cells, yet converts without error to no records |
| AsciiTable.ShortOrphanRowWritesNothing | utils/ascii2tsv.py:24-28 | any lone continuation row with fewer than four cells converts without error to no records |
| ScanDisk.FindCategory | utils/scandisk.py:49-52 | `other` iff no list holds the extension; otherwise the first category in table order whose list holds it |
| ScanDisk.ExtensionListsDisjoint | utils/scandisk.py:8-12 | no extension is listed under two categories |
| ScanDisk.GetCategory | utils/scandisk.py:47-52 | audio, video, image exactly when the lower-cased suffix is in that list |
| ScanDisk.LowerIsIdempotent | utils/scandisk.py:48 | lowering twice is lowering once |
| ScanDisk.CategoryIgnoresCase | utils/scandisk.py:48 | a suffix and its lower-case form get the same category |
| ScanDisk.UpperCaseVideoSuffix | utils/scandisk.py:47-52 | ".MP4" is video |
| ScanDisk.Counts.Bump | utils/scandisk.py:164 | the counter of the category goes up by one and no other moves |
| ScanDisk.CountCategories | utils/scandisk.py:159-164 | the counting loop computes `Tally` of the item's files |
| ScanDisk.CategoryIndicesStep | utils/scandisk.py:161-164 | one more entry adds its position to its category's file positions when it is a regular file |
| ScanDisk.TallyCountsCategory | utils/scandisk.py:159-164 | each counter equals the number of regular files of its category |
| ScanDisk.FileIndicesStep | utils/scandisk.py:161-162 | one more entry adds its position to the file positions when it is a regular file |
| ScanDisk.BumpAddsOne | utils/scandisk.py:164 | one bump raises the total by one |
| ScanDisk.TallyTotalIsFileCount | utils/scandisk.py:159-164 | the four counters add up to the number of regular files |
| ScanDisk.Tally | utils/scandisk.py:159-164 | the four counters never add up to more than the entries seen |
| ScanDisk.RootFolders | utils/scandisk.py:149 | never more root folders than children |
| ScanDisk.RootFoldersAreTheDirectories | utils/scandisk.py:149 | the root folders are exactly the children that are directories; none when no child is a directory |
| ScanDisk.RootFoldersAppend | utils/scandisk.py:149 | the comprehension distributes over concatenation of the listing, so the folders keep their listing order and multiplicity |
| ScanDisk.RootFoldersOfOne | utils/scandisk.py:149 | a single child is kept exactly when it is a directory |
| ScanDisk.ItemsToScan | utils/scandisk.py:151-156 | at least one item is scanned |
| ScanDisk.FoldersAreScanned | utils/scandisk.py:151-153 | with a directory under the root, the items are the root folders |
| ScanDisk.RootIsScannedAlone | utils/scandisk.py:154-156 | with no directory under the root, the root alone is scanned |
| ScanDisk.FolderName | utils/scandisk.py:168-171 | the root is labelled with a non-empty root name, else "<ROOT>"; a folder with its file name |
| ScanDisk.ItemFiles | utils/scandisk.py:160 | a directory is scanned through its recursive listing; any other item is scanned alone |
| ScanDisk.ResultFor | utils/scandisk.py:158-173 | the result carries the item's label and the report name, and its counters add up to the number of regular files scanned for the item |
| ScanDisk.ReportName | utils/scandisk.py:133 | the report's name holds no '/' and only characters of `<disk>.txt`; it is exactly `<disk>.txt` when the disk number holds no '/' |
| ScanDisk.AnalyseDisk | utils/scandisk.py:145-173 | one result per item to scan, in order: its label, its category counts and the report name `ReportName(disk)`, the file name of `<disk>.txt` |
| ScanDisk.ScanItem | utils/scandisk.py:158-173 | one pass of the item loop yields that item's result |
| ScanDisk.KeepOtherDisks | utils/scandisk.py:260 | a line is kept iff it does not contain `data-disk='<disk>'` |
| ScanDisk.KeepOtherDisksAppend | utils/scandisk.py:260 | the filter distributes over concatenation, so kept lines keep their order |
| ScanDisk.RowCells | utils/scandisk.py:267-274 | the cells open with the disk number's cell and close with the report link's closing tags |
| ScanDisk.RowHtml | utils/scandisk.py:266-276 | a row opens with `<tr `, carries the disk's `data-disk` tag and ends with `</tr>` and a newline |
| ScanDisk.RowsHtml | utils/scandisk.py:265-276 | one row per result, each tagged with the disk |
| ScanDisk.InsertBeforeClosers | utils/scandisk.py:263-277 | at least as many lines come out as go in, and the last line written is the last kept line |
| ScanDisk.InsertStep | utils/scandisk.py:263-277 | one more kept line writes the rows first when it holds `</tbody>`, then the line |
| ScanDisk.RewriteIndex | utils/scandisk.py:260-277 | the rewrite loop writes exactly `Rewritten`: the kept lines, with the new rows before each `</tbody>` line |
| ScanDisk.Rewritten | utils/scandisk.py:257-277 | the untagged lines of the rewritten index are exactly the untagged lines of the old one |
| ScanDisk.WriteRows | utils/scandisk.py:265-276 | the inner loop appends one row per result, in order |
| ScanDisk.InsertAppend | utils/scandisk.py:263-277 | insertion distributes over concatenation of the kept lines |
| ScanDisk.NoCloserNoRows | utils/scandisk.py:264 | with no `</tbody>` line, nothing is inserted |
| ScanDisk.WrittenLines | utils/scandisk.py:263-277 | every written line is a new row or an old line |
| ScanDisk.OldRowsAreReplaced | utils/scandisk.py:260-277 | every line of the rewritten index tagged with the disk is one of the new rows |
| ScanDisk.TaggedRowsAreDropped | utils/scandisk.py:260 | the filter drops every tagged row |
| ScanDisk.FilterUndoesInsert | utils/scandisk.py:260-277 | filtering the disk's rows out of a rewrite gives back the kept lines |
| ScanDisk.KeepUntagged | utils/scandisk.py:260 | an untagged line is kept |
| ScanDisk.RewriteIsIdempotent | utils/scandisk.py:257-277 | rewriting an index twice with the same results is rewriting it once |

## Left out

- File discovery is not modelled: `scan_files`, its directory walk, `fnmatch`
  exclusion, extension filters and `Path.suffix`. Files enter the packer as a
  list of path/size entries, and suffixes enter the indexer as given data.
- The `ignore_hidden=args.no_hidden or True` call at utils/disc_packer.py:303
  always passes `True`. It lies in `scan_files`' arguments, which are not
  modelled.
- Not modelled in disc_packer.py:
  - `human_bytes`;
  - the JSON plan;
  - the printed summary;
  - argument parsing (only its profile and unit choices appear, as
    preconditions of `Capacity.ListedChoicesResolve`);
  - `main`.
- Not modelled in `materialise_plan`: directory creation and the
  symlink/hardlink/copy actions, including their fallbacks and error handling.
  The model covers only the destination names and when they collide.
- `DiscPacker.Destination` assumes a staging directory written without a
  trailing '/'. `pathlib` would normalise one away.
- DiscPacker.Destination: the contract states only that the destination
  keeps the source's file name. That the destination also starts with
  `<staging>/disc_NNN/` follows from the body but is not stated.
- DiscPacker.OpenBin: the model assumes Python assertions are enabled. Under
  `python -O` the `assert` at utils/disc_packer.py:132 is removed together
  with the `try_add` call inside it. The new bin is then appended empty and
  the file is in no bin and not skipped. The model does not capture that
  behaviour.
- `DiscPacker.ExportCsv` produces the rows, not their CSV text. Quoting,
  line endings and the rendering of `str(Path)` are left to the `csv` module.
- Packing.BinState.Utilisation: the float division is modelled as an exact
  real quotient, so rounding error is not captured.
- Capacity.ResolveCapacity: a custom capacity is multiplied as an exact real.
  The rounded floating-point product of the source may truncate to a
  different integer.
- Capacity.ReserveBytes: the reserve is computed as an exact real before
  truncation, with the same caveat as for the custom capacity.
- Packing.FirstFitDecreasingPlan packs with the corrected threshold. It
  differs from the source only on the inputs where the source stops with an
  `AssertionError` (see Findings).
- No property about monotonicity in capacity is stated. First-fit-decreasing
  is not monotone in general: a larger disc can need more discs.
- Not modelled in `utils/ascii2tsv.py`:
  - opening the input and output;
  - the `csv.DictWriter` output;
  - the `NameError` when the input has no heading row (`header` is then
    undefined). `Convert` returns the records that would be written.
- AsciiTable.Classify matches the rule pattern `^\|-+` as "starts with `|-`",
  which is what `re.match` decides for that pattern.
- Text.Lower lowers ASCII capitals and the Kelvin sign, the only characters
  whose lower-case form is plain ASCII. Other characters are kept. Python
  would change some of them, but never to a string that matches an extension
  in the tables.
- Not modelled in `utils/scandisk.py`:
  - `get_mountpoint`;
  - `run_ffprobe_parse` and the report text it writes;
  - the `input()` confirmation and the cancelled run;
  - creation of the index when it does not exist yet;
  - the file reads and writes.
- The recursive walk `sorted(item.rglob("*"))` is given as the `listing` map
  (the order of `sorted` included). `AnalyseDisk` requires a listing for
  every directory it scans.
- ScanDisk.ReportName: a disk number holding '/' makes
  `MEDIAINFO_DIR / f"{disk_number}.txt"` a path into a sub-directory. The
  contract then states only that the name holds no '/' and no character
  outside `<disk>.txt`, not which suffix it is. Opening that report fails
  with `FileNotFoundError` when the sub-directory is missing. That failure
  is not modelled.
- ScanDisk.RewriteIsIdempotent treats each written row as one line of the
  index. A folder name or a disk number holding a newline would be split
  differently when the file is read back.
- A disk number holding `'` gives a marker that can contain another disk's
  marker: the marker of disk `1` is part of the marker of disk `1'`, so a
  rescan of disk `1` also drops the rows of disk `1'`. The model uses the
  same containment test, so it shares this behaviour; no lemma excludes it.
- Text.BaseName returns the empty name for a path ending in '/', where
  `pathlib` drops the trailing '/' first. The paths the scripts pass in
  (directory listings and `<disk>.txt`) never end in '/'.
- `utils/scan_disk_cumulative.py`, `utils/html2tsv.py` and
  `mercoledi_cinema.py` are not part of this model.

## Findings

| source | as written | input that shows it | evidently intended | confidence | as-written member | corrected member |
|---|---|---|---|---|---|---|
| utils/disc_packer.py:118 | the too-big threshold is clamped at 0 with `max(0, ...)`, so a 0-byte file passes the threshold test even when the overhead exceeds the effective capacity; no new bin can take it, and the "must fit" assertion at line 132 fails | capacity 100, reserve 0, per-file overhead 200, one file of size 0 | a file that cannot fit in an empty bin is skipped: threshold `effective_capacity - per_file_overhead` without the clamp | not executed | Packing.AsWrittenThresholdBreaksMustFit | Packing.NewBinAcceptsIffWithinThreshold |
