# Split Image: a verified model

This project models the `ImageProcessor` of the Split Image tool
(`src/apps/split_image.py`). The processor takes a source folder and a number
of designers and does the following:

- it creates one `Designer_k` folder per designer;
- it walks the folder and keeps the supported images whose names carry a
  12- or 13-character file id;
- it groups the images by id and counts them per extension;
- it sorts the groups by id and hands them out to the designers in
  contiguous blocks;
- it moves every file into its designer's folder and tests whether the file
  has a white background;
- it reports progress through callbacks;
- it writes a two-sheet spreadsheet: the file names per designer, padded to
  a common length, and a summary of five metrics.

The project also models three path helpers of `src/utils.py`:

- `should_exclude_file`, the system-file filter;
- `get_archive_type`, the archive type read from a file's suffix;
- `get_all_files`, the filtered file listing.

## Structure

- **`ImageProcessor` is a class.** `Processor.ImageProcessor` holds the
  fields of `self.stats`, plus the effects the run has outside the object:
  - the folders it creates;
  - the scan and progress callbacks it makes, in order;
  - the report it writes;
  - the completion callbacks.
- **`run` is a method.** It is split along the phases of the source. Each
  loop of the source is a `for` loop, proved against a specification
  function:
  - the scan loop against `Scan.ScanWalk`, a fold over the walk;
  - the hand-out loop against `Distribution.Placed`;
  - the counters against `MovedCount`, `WhiteCount` and `NonWhiteCount`;
  - the report against `Report.BuildWorkbook`.
- **The specification functions have lemmas.** The lemmas tie them to
  independent descriptions:
  - the files with a given id;
  - the blocks `BlockStart(d) .. BlockStart(d + 1)` of the distribution
    formula;
  - the unique increasing order of the ids;
  - the round trip of the time format.
- **`is_white_background` is a method** with the source's two
  flag-and-`break` loops, proved equal to a predicate on the pixels.
- **The pure helpers are functions**, with lemmas beside them:
  - `format_time`;
  - `extract_file_id`;
  - the path operations of `os.path` and `pathlib`;
  - the helpers of `src/utils.py`.
- **Inputs the model cannot compute are parameters:**
  - the walk is a sequence of (directory, name) pairs;
  - what happens to each file is a function `fate`: either the rename
    raises, or the file moves and then opens as an image or fails to open;
  - the clock is given as elapsed whole seconds.

Some behaviours of the code that a reader might expect to be otherwise:

- The groups are not balanced greedily by size. The code hands out
  contiguous blocks of the id-sorted groups by the `//` and `%` formula
  (split_image.py:60-70).
- A file whose move fails is still listed under its designer in the report.
  The name is appended before the `os.rename` (split_image.py:77-80).
- Only files that have an id are counted per extension
  (split_image.py:47-53).
- The summary's "Total Images Processed" is the number of grouped files
  found, whether or not they moved (split_image.py:56, :181).

## Model

| member | source | states |
|---|---|---|
| Scan.ExtractFileId | src/apps/split_image.py:145-150 | there is no id exactly for names shorter than 12; an id is a prefix of the name, of length 12 or 13; it has 13 characters exactly when the first 13 characters are digits |
| Scan.FileIdQuirk | src/apps/split_image.py:145-150 | a 13-digit name and a name sharing only its first 12 characters get different ids; names that share 12 characters and do not start with 13 digits get the same id |
| Paths.SplitExtension | src/apps/split_image.py:45 | the extension `os.path.splitext` returns is empty, or a suffix of the path made of a dot followed by no further dot and no `/` |
| Paths.SplitExtensionOfStem | src/apps/split_image.py:45 | a name made of a slash-free stem holding some non-dot character, then a dot and no further dot or `/`, has exactly that dot-led part as extension, alone or under any directory |
| Paths.SplitExtensionOfDotName | src/apps/split_image.py:45 | leading dots do not start an extension: `.png` has none, so it is never a supported image |
| Paths.JoinPathParts | src/apps/split_image.py:36 | `os.path.join(a, b)`, as used for the designer folders, the walked files and the destinations: an absolute `b` replaces `a`; otherwise the result starts with `a`, ends with `b`, and has a `/` just before `b` when `a` is not empty |
| Paths.BasenameOfFullPath | src/apps/split_image.py:75 | the basename of `os.path.join(root, file)` is the walked name `file` |
| Scan.ScanKeepsQualified | src/apps/split_image.py:40-56 | the scan keeps exactly the walked files with a supported extension and an id, in walk order |
| Scan.GroupIsIdClass | src/apps/split_image.py:47-51 | the group of an id holds exactly the kept files with that id, in walk order; an id has a group exactly when some kept file has that id |
| Scan.ExtensionCountIsCount | src/apps/split_image.py:53 | an extension's counter is the number of kept files with that extension |
| Scan.ScanIsValid | src/apps/split_image.py:40-56 | every scan state: the group ids and the extensions are each listed once, and exactly the keys of their maps are listed; no group is empty; the groups hold exactly the kept files; only supported extensions are counted; the counters add up to the number of kept files |
| Scan.ExtensionOrderFirstSeen | src/apps/split_image.py:40-53 | the extensions are keyed in the order in which the kept files first show them, which is the order of the report's extension list |
| Scan.RecordKeepsValid | src/apps/split_image.py:49-53 | recording one kept file preserves that invariant |
| Scan.StepKeepsValid | src/apps/split_image.py:44-54 | one iteration of the inner scan loop preserves that invariant |
| Processor.ImageProcessor.constructor | src/apps/split_image.py:14-28 | the statistics start at zero, the maps are empty, and nothing has been created, called or written |
| Processor.ImageProcessor.CreateDesignerFolders | src/apps/split_image.py:34-38 | after the loop there is one empty list per designer, keyed `Designer_1` .. `Designer_n` in order, and one folder path per designer; no folders for a non-positive count |
| Processor.DesignerKeys | src/apps/split_image.py:38 | the k-th designer key is `Designer_{k+1}` |
| Processor.DesignerKeyInjective | src/apps/split_image.py:36-38 | different designers get different keys |
| Processor.NextKeyIsNew | src/apps/split_image.py:38 | the next designer key is not among the earlier ones |
| Processor.FolderPaths | src/apps/split_image.py:36 | the k-th folder is `os.path.join(source, Designer_{k+1})` |
| Processor.ImageProcessor.ScanFolder | src/apps/split_image.py:40-55 | the loop's groups, group order, kept files and extension counters equal the scan of the walk; the scan callback receives 1, 2, .. up to the number of kept files |
| Processor.ImageProcessor.RecordFile | src/apps/split_image.py:49-54 | the state after one kept file is the recording step of the scan, with one more scan callback |
| Sorting.SortOfDistinct | src/apps/split_image.py:60 | `sorted` of the distinct ids is a strictly increasing permutation of them, and the only one |
| Processor.SortedGroupsProperties | src/apps/split_image.py:60-66 | the ids are visited in increasing order, each once; each group is visited whole; the move loop visits every kept file exactly once |
| Distribution.DesignerIndex | src/apps/split_image.py:62-70 | the designer index is below the number of designers |
| Distribution.DesignerIndexBranches | src/apps/split_image.py:67-70 | each branch of the formula under its own test; the second branch is reached only when `groups_per_designer > 0`, so its division never fails |
| Distribution.IndexInBlock | src/apps/split_image.py:62-70 | group i goes to the designer whose block `BlockStart(d) .. BlockStart(d+1)` holds i |
| Distribution.BlockSize | src/apps/split_image.py:62-63 | the first `extra_groups` designers get `groups_per_designer + 1` groups and the others `groups_per_designer` |
| Distribution.BlocksCover | src/apps/split_image.py:62-63 | the blocks start at 0 and end at the number of groups |
| Distribution.BlockDeterminesIndex | src/apps/split_image.py:66-70 | group i goes to designer d if and only if i lies in d's block |
| Distribution.IndexMonotone | src/apps/split_image.py:66-70 | a later group never goes to an earlier designer |
| Distribution.PlacedSnoc | src/apps/split_image.py:66-77 | handing out group i appends it to exactly its designer's list |
| Distribution.PlacedBlocks | src/apps/split_image.py:60-77 | once all groups are handed out, each designer holds the groups of its block, concatenated in id order |
| Distribution.PlacedFlatten | src/apps/split_image.py:60-77 | the designers' lists, read in designer order, are all the groups' files in id order |
| Processor.DesignerListIsBlock | src/apps/split_image.py:60-77 | a designer's recorded names are the names of the groups of its block, whole and in id order |
| Processor.DesignerListsCover | src/apps/split_image.py:66-77 | between them the lists name every kept file exactly once, in processing order, failed moves included |
| Processor.FlattenNames | src/apps/split_image.py:74-77 | the names of the concatenated groups are the concatenation of the groups' names |
| Processor.ImageProcessor.MoveGroups | src/apps/split_image.py:65-94 | after the loop each designer's list is its share of the groups by the formula; the two counters count the moved files that are white and not white; the progress log has one entry per moved file |
| Processor.ImageProcessor.HandOut | src/apps/split_image.py:66-77 | one turn of the outer loop moves the lists from the first i groups to the first i+1 and keeps the counters in step |
| Processor.ImageProcessor.MoveGroup | src/apps/split_image.py:74-94 | the group's names are appended to its designer's list and to no other; the counters and the progress log account for every file of the group |
| Processor.ImageProcessor.ListFile | src/apps/split_image.py:75-77 | the file's basename is appended to its designer's list, and nothing else changes |
| Processor.ImageProcessor.MoveFile | src/apps/split_image.py:79-94 | a failed rename changes no counter; a successful one is counted and classified |
| Processor.ImageProcessor.CountMoved | src/apps/split_image.py:82-91 | exactly one of the two background counters grows, according to the background test; `processed` grows by one and is reported with its elapsed time |
| Processor.CountStep | src/apps/split_image.py:79-94 | how one more visited file changes the moved, white and non-white counts |
| Processor.CountsAddUp | src/apps/split_image.py:82-89 | white plus non-white equals the number of moved files, which is at most the number visited |
| Processor.CountsAppend | src/apps/split_image.py:72-94 | the counts over two runs of files add up |
| Processor.RunCountersAddUp | src/apps/split_image.py:56-94 | over a whole run, white plus non-white equals the moved files, which are at most `total_images` |
| Processor.ProgressLog | src/apps/split_image.py:89-91 | the p-th progress entry reports p with its formatted elapsed time |
| Processor.ProgressIncreasing | src/apps/split_image.py:89-91 | the reported counts go 1, 2, .. strictly upward, ending at the number of moved files |
| Processor.ImageProcessor.Run | src/apps/split_image.py:30-100 | the final state: scan results and scan callbacks; designer keys and folders; for a positive count, each designer's list is its block and the counters and progress log count the moves; the report and one completion call unless the run aborts; no report and no completion call when it aborts (zero designers, or a negative count with groups present) |
| Processor.ImageProcessor.Prepare | src/apps/split_image.py:30-56 | the folders, then the scan, then `total_images`; the move counters are still zero |
| Processor.ImageProcessor.Distribute | src/apps/split_image.py:57-100 | the distribution and moves for a positive count; the exception exits for zero, or for a negative count with groups; otherwise the report and the completion callback |
| Processor.ImageProcessor.MoveSorted | src/apps/split_image.py:60-94 | the sorted groups handed out and moved: the designer lists are the walk's blocks and the counters count its moves |
| Processor.ImageProcessor.Finish | src/apps/split_image.py:96-97 | the report is the workbook built from the statistics; the completion callback is made once more |
| Processor.ImageProcessor.CreateExcelReport | src/apps/split_image.py:152-188 | the report is the workbook built from the current statistics and the elapsed seconds; nothing else changes |
| Classifier.IsWhiteBackground | src/apps/split_image.py:116-143 | the two flag-and-`break` loops return exactly `ImageIsWhite`: the image opens and its top-left or top-right 5x5 block is white |
| Classifier.ProbeWhite | src/apps/split_image.py:125 | the pixel test passes exactly for an in-range pixel of a tuple image whose first three channels are 255 |
| Classifier.BlockWhiteInside | src/apps/split_image.py:123-138 | a block that passes lies inside an image of channel tuples |
| Classifier.LeftFailureExcludesRight | src/apps/split_image.py:123-143 | a pixel read that raises in the left block rules out a white right block, so returning false early is the same answer |
| Classifier.ImageIsWhiteIff | src/apps/split_image.py:116-143 | white if and only if the image opens, is at least 5x5, has channel tuples, and one top corner block has every pixel white |
| Classifier.TooSmallOrScalarNotWhite | src/apps/split_image.py:119-143 | images narrower or shorter than 5, and single-band images, are never white |
| Report.FormatTime | src/apps/split_image.py:102-106 | `HH:MM:SS` of the whole seconds: splitting at the colons gives exactly three fields, the hours, minutes and seconds, each zero-padded to at least two digits |
| Report.Pad2 | src/apps/split_image.py:106 | `{n:02d}` is all digits, at least two of them, exactly two below 100, with no leading zero when longer than two, and reads back as n |
| Strings.NatToString | src/apps/split_image.py:164 | the decimal digits of a count: all digits, one digit exactly below 10, and no leading zero for a positive number |
| Report.TimeFields | src/apps/split_image.py:102-105 | hours, minutes and seconds recombine to the total; minutes and seconds are below 60 |
| Report.ParseFormatTime | src/apps/split_image.py:102-106 | reading `HH:MM:SS` back gives the number of seconds it was made from |
| Report.FormatTimeShape | src/apps/split_image.py:102-106 | at least 8 characters; exactly 8 below 100 hours; from 10 hours on, the plain decimal hours plus six characters; colons at the third- and sixth-last positions |
| Report.DesignerSheet | src/apps/split_image.py:154-162 | one column per designer, in insertion order, headed by its key; every column has the longest list's length and starts with its designer's list |
| Report.MaxLength | src/apps/split_image.py:154 | `max_files` bounds every list and is reached by one, or is 0 without designers |
| Report.PadColumn | src/apps/split_image.py:155 | the padded column has length `max_files`, starts with the list and is blank after it |
| Report.DesignerSheetAligned | src/apps/split_image.py:154-162 | one column per designer in insertion order, headed by its key; all columns have the same length; each column starts with its list and is blank after it |
| Report.NoDesignersNoPadding | src/apps/split_image.py:154 | without designers `max_files` is 0 and the sheet is empty |
| Report.ExtensionsText | src/apps/split_image.py:164 | `extensions_text` is empty exactly when there are no extensions; otherwise it starts with the first entry and ends with the last |
| Report.ExtensionEntries | src/apps/split_image.py:164 | one `ext (count)` entry per extension, in insertion order |
| Report.ExtensionsTextSplit | src/apps/split_image.py:164 | splitting `extensions_text` at ", " gives back the entries when no extension holds a comma; without extensions the text is empty |
| Report.ExtensionEntryParts | src/apps/split_image.py:164 | an entry starts with the extension, followed by " (", the count in digits and ")" |
| Report.Summary | src/apps/split_image.py:172-187 | the five metric labels in their order, each with its value: the three counts as numbers, the extension text and the processing time as text |
| Report.BuildWorkbook | src/apps/split_image.py:152-188 | the workbook has one designer column per designer, headed by its key and starting with its list; the summary holds the total, white and non-white counts under their labels, an extension text that is empty exactly without extensions, and a processing time that reads back as the elapsed seconds |
| Utils.ShouldExcludeFile | src/utils.py:26-35 | a path is excluded exactly when it ends with `.DS_Store`, `Thumbs.db` or `desktop.ini` (compared case-sensitively) as its whole final component: the path is that name, or the name follows a `/` |
| Paths.BasenameIsComponent | src/utils.py:35 | `os.path.basename(p)` is a slash-free `n` exactly when `p` is `n` or ends with `/` followed by `n` |
| Utils.ExcludedNames | src/utils.py:26-35 | a plain name is excluded exactly when it is `.DS_Store`, `Thumbs.db` or `desktop.ini`, with or without a directory in front |
| Utils.ShouldExcludeUnderDirectory | src/utils.py:35 | only the final path component decides exclusion |
| Utils.ExclusionIsCaseSensitive | src/utils.py:30-35 | the spellings `thumbs.db`, `.ds_store` and `Desktop.ini` are not excluded |
| Paths.Basename | src/utils.py:35 | `os.path.basename` never holds a `/` |
| Utils.GetArchiveType | src/utils.py:123-133 | the type is one of `zip`, `7z` and `unknown` |
| Utils.ArchiveTypeOfLastSuffix | src/utils.py:127-131 | `stem.zip` is `zip` and `stem.7z` is `7z`, whatever dots the stem holds, alone or under any directory |
| Utils.ArchiveTypeOfOtherSuffix | src/utils.py:127-133 | a last suffix other than `.zip` and `.7z` in any case, such as `.rar` or the `.bak` of `a.zip.bak`, gives `unknown`, alone or under any directory |
| Utils.ArchiveTypeIgnoresCase | src/utils.py:127 | lower-casing the path does not change the type |
| Utils.ArchiveTypeOfUpperCaseSuffix | src/utils.py:127-131 | `.ZIP` and `.7Z` select `zip` and `7z` |
| Utils.ArchiveTypeOfHiddenName | src/utils.py:127-133 | a file named `.zip` has no suffix and is `unknown` |
| Paths.PathName | src/utils.py:127 | `PurePath(p).name` is never `.`; when it is not empty it is one of the `/`-separated pieces of the path and holds no `/` |
| Paths.Suffix | src/utils.py:127 | `PurePath.suffix` is empty, or a dot-led proper suffix of the name with at least two characters |
| Utils.GetAllFiles | src/utils.py:8-22 | the result is the listed paths minus the excluded ones, in order, for a single file and for a walked tree |
| Utils.KeptAppend | src/utils.py:17-21 | filtering commutes with concatenation |
| Utils.KeptCounts | src/utils.py:17-21 | every non-excluded path is kept as often as it occurs, and no excluded path is kept |
| Utils.SingleFileListing | src/utils.py:13-15 | a single excluded file gives nothing; any other single file gives itself |

## Left out

- The GUI (`SplitImageApp`) and the thread machinery are left out. `run` is a sequential method; callbacks are recorded in fields rather than called.
- The input check of the number of designers (1 to 60) lives in the GUI. The model takes any integer. It models the exception exits the run then takes: division by zero for zero designers, and a missing designer list for a negative count with groups present.
- The real file system is left out. The walk, creating folders and `os.rename` are inputs or recorded effects. The walk's order and content are arbitrary; this includes files already sitting in `Designer_k` folders.
- Processor.ImageProcessor.Run: assumes creating the designer folders succeeds. In the source a failing `os.makedirs` raises inside the outer `try` and ends the run before the scan, with no report and no completion call (split_image.py:36-37, :99). This happens, for example, when a plain file named `Designer_1` already exists or the folder is not writable. The model does not have that abort.
- Rename failures of every kind become the `MoveFailed` outcome. This covers missing sources and collisions of equal names in one designer folder. Overwriting a file on collision is not modelled.
- `apply_mac_tag` is left out. It runs an external `osascript` command and swallows its own errors.
- Image decoding (PIL) is left out. A decoded image is an input: its size, and either single-band values or channel tuples per pixel. For pixel reads outside the image, the model says that reading raises. Pillow may instead wrap negative indices. Only the right-hand loop can produce them, when the width is below 5, and this changes no answer. The left loop then either raises when x reaches the width, which makes the whole test return false, or breaks on a non-white pixel at a column below the width. The wrapped right loop reads every column below the width, so it cannot pass either.
- Writing the spreadsheet (pandas and openpyxl) is left out. The report is the value of the two sheets. An exception while writing, which the source swallows, is not modelled.
- Time is left out of the model's arithmetic. Elapsed times are whole seconds, given as parameters: `elapsedAt` for the progress callbacks, `totalTime` for the report. The clock and floating-point seconds are not modelled.
- The `stats` dictionary passed to the progress and completion callbacks is left out. So are `print` and the error messages.
- `str.isdigit` and `str.lower` are modelled on ASCII. In the source they also accept other Unicode digits and letters.
- Paths follow POSIX separators. Windows drive letters and backslashes are not modelled.
- The archive functions themselves are left out: compression and extraction through zipfile, pyzipper and py7zr. The build scripts are left out too.
- `Processor.Names` states only the length of its result. Its elements are given by `Collections.MapSeq`, which it is defined with.
