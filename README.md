# Verified model of four file-maintenance scripts

This project is a Dafny model of the logic in four Python utility scripts, with proofs about that model.

- **The file organizer** (`cleanup/organize_files.py`):
  - classifies each regular file directly inside a folder by its lowered extension, using an ordered category table;
  - recognises `.tar.gz`, `.tar.bz2` and `.tar.xz` first;
  - skips system files, hidden names and directories;
  - groups the rest by category and creates the category folders;
  - moves every queued file into its folder, probing `stem_1.ext`, `stem_2.ext`, … when the name is taken.
- **The photo sorter** (`cleanup/photosorter.py`):
  - dates every supported photo below a source directory from its EXIF tags (PIL first, then exifread), or else from its modification time;
  - creates `destination/YYYY/MM/DD` for that date;
  - moves or copies the photo there under a free name, or in a dry run only routes it;
  - keeps six counters along the way.
- **The string replacer** (`cleanup/string_replacer.py`):
  - collects every path below a root bottom-up, as `os.walk(topdown=False)` does;
  - rewrites each text file that holds the search string;
  - renames each file and directory whose name holds it;
  - renames the root last.
- **The calendar converter** (`csv-to-ics.py`, and its identical copy `imageconvert/csv-to-ics.py`):
  - turns each CSV row into a seven-line VEVENT of an iCalendar VCALENDAR object (RFC 5545, sections 3.4 and 3.6.1);
  - skips rows that fail validation;
  - ends the run on errors the row handler does not catch;
  - writes every line followed by `"\n"`.

A filesystem is a value:
- for the organizer and the sorter, a `Snapshot` (a map from file paths to contents, plus a set of directory paths);
- for the replacer, a `Node` tree.

A path is a sequence of names. The code that changes the filesystem step by step is imperative Dafny:
- the class `ModelFs.Disk` holds a snapshot;
- the class `StringReplacer.Volume` holds a tree;
- each loop of a script is a method with a `while` loop.

Each method is proved equal to a function over values (`MoveGroups`, `ProcessAll`, `ProcessPaths`, `Calendar`, …). The properties the scripts promise are proved as lemmas about those functions.

Modules, one per file:

| file | module | contents |
|---|---|---|
| `wrappers.dfy` | `Wrappers` | `Option` |
| `text.dfy` | `Text` | the string operations used: ASCII lowering, `in`, `find`/`rfind`, `split`, `join`, `replace`, decimal rendering, `int()` |
| `dates.dfy` | `Dates` | `datetime` values, fixed-width `strftime` and a strict `strptime`, with their round trips |
| `naming.dfy` | `Naming` | pathlib's `stem`/`suffix` and the collision-probing loop shared by the organizer and the sorter |
| `disk.dfy` | `ModelFs` | snapshots, `mkdir`, `shutil.move`, `shutil.copy2`, and the `Disk` class |
| `organize.dfy` | `OrganizeFiles` | the file organizer |
| `photosorter.dfy` | `PhotoSorter` | the photo sorter |
| `replacer.dfy` | `StringReplacer` | the string replacer |
| `ics.dfy` | `CsvToIcs` | the calendar converter |

Where the design notes of the photo sorter and its code differ, the model follows the code:
- The code's collision loop has no upper bound. The model proves that the loop ends on the least free counter; it adds no limit.
- A date folder that cannot be created raises inside the per-file `try` of `organize_photos`. The file is counted under `errors` and the run goes on (`PhotoSorter.Tally`), rather than the failure going back to a caller.
- In exifread's tags, an unreadable `EXIF DateTimeOriginal` gives no date even when `Image DateTime` is readable (`PhotoSorter.ExifreadNoFallback`). The fallback to the second tag happens only when the first is absent.

The two copies of the calendar converter are identical line for line, so a row citing one of them holds for the other at the same lines.

A CSV row is a map from column name to an optional field. `csv.DictReader` fills a short row's missing columns with `None`. Using such a field raises an error the row handler does not catch, so the run ends. The model keeps that case rather than treating rows as maps to strings.

## Model

| member | source | states |
|---|---|---|
| Text.Contains | cleanup/string_replacer.py:75 | `pat in s` is true exactly when `pat` occurs at some index of `s` (always, for the empty pattern) |
| Text.Split | csv-to-ics.py:31 | `split(":")` gives at least one part, and no part holds the separator |
| Text.SplitJoin | csv-to-ics.py:31 | joining the parts of a split with the separator gives back the string |
| Text.JoinSplit | csv-to-ics.py:71-72 | splitting a join of separator-free parts gives back the parts |
| Text.ReplaceWithoutMatch | cleanup/string_replacer.py:58-59 | `replace` leaves a string without an occurrence of the pattern unchanged |
| Text.ReplaceWithItself | cleanup/string_replacer.py:76 | replacing a pattern by itself changes nothing, the empty pattern included |
| Text.ReplaceChar | csv-to-ics.py:41 | replacing one character by another keeps the length and leaves none of the first |
| Text.ReplaceGrows | cleanup/string_replacer.py:76 | a longer replacement never shortens a name, and lengthens it when the pattern occurs |
| Text.ReplaceShrinks | cleanup/string_replacer.py:76 | a shorter replacement never lengthens a name, and shortens it when the pattern occurs |
| Text.ReplaceChanges | cleanup/string_replacer.py:121 | with a replacement of different length, a name holding the pattern always changes |
| Text.DecimalRoundTrip | cleanup/organize_files.py:123 | `f"{counter}"` is a non-empty run of digits that reads back as the counter |
| Text.DecimalInjective | cleanup/organize_files.py:123 | distinct counters are written differently |
| Text.ParseDigits | csv-to-ics.py:32 | `int()` of a non-empty run of digits is their value, leading zeros included |
| Text.ParseDecimal | csv-to-ics.py:32 | `int(str(n)) == n` |
| Dates.Pad | cleanup/photosorter.py:81-83 | a zero-padded field has exactly its width, all digits |
| Dates.PadValue | cleanup/photosorter.py:81-83 | a number that fits its width reads back from its padded form |
| Dates.StrptimeStrftime | cleanup/photosorter.py:30 | `strptime` reads back every valid date-time `strftime` wrote with the same layout, when the fields the layout does not name are at their defaults |
| Dates.StrptimeCanonical | csv-to-ics.py:28 | `strptime` gives a valid date-time and accepts only the fully padded spelling of it |
| Dates.ExifLayoutComplete | cleanup/photosorter.py:30 | `%Y:%m:%d %H:%M:%S` names every field of a date-time |
| Dates.CompactLayoutComplete | csv-to-ics.py:33 | `%Y%m%dT%H%M%S` names every field of a date-time |
| Dates.IsoDateLayoutFields | csv-to-ics.py:28 | `%Y-%m-%d` sets the date and leaves the time at midnight |
| Naming.Suffix | cleanup/organize_files.py:120 | the suffix ends the name; it is empty or a dot followed by at least one non-dot character, and shorter than the name |
| Naming.Stem | cleanup/organize_files.py:119 | stem followed by suffix is the name; a non-empty suffix leaves a non-empty stem |
| Naming.SuffixEmpty | cleanup/organize_files.py:120 | the suffix is empty exactly when the name has no dot, or its last dot is its first or last character |
| Naming.SplitName | cleanup/organize_files.py:119-120 | a non-empty stem followed by a one-dot suffix splits back into the two |
| Naming.CandidateInjective | cleanup/organize_files.py:123 | different counters give different probe names |
| Naming.CandidateIsNew | cleanup/organize_files.py:123 | a probe name never equals the name it was derived from |
| Naming.FirstFree | cleanup/organize_files.py:122-125 | starting from a counter below which every probe is taken, the search ends on the least free counter |
| Naming.Resolve | cleanup/organize_files.py:116-125 | the destination is free and in the same directory, and is the original path when that is free |
| Naming.ResolveIsLeastFree | cleanup/organize_files.py:118-125 | a taken destination resolves to `stem_k + suffix` for the least free `k >= 1`, with the stem and suffix of the original name |
| Naming.LeastFreeUnique | cleanup/organize_files.py:122-125 | there is only one least free counter, so the result is determined by the set of taken paths |
| Naming.ProbeFreeName | cleanup/organize_files.py:116-125 | the probing while loop terminates and returns `Resolve` of the existing paths; the sorter's loop at cleanup/photosorter.py:157-163 is the same |
| Naming.ProbeExample | cleanup/photosorter.py:157-163 | with `photo.jpg` and `photo_1.jpg` taken, the next copy is `photo_2.jpg` |
| ModelFs.MakeDirsStep | cleanup/photosorter.py:86 | `mkdir(parents=True, exist_ok=True)` fails exactly when the path or an ancestor is a file; otherwise every level exists afterwards, files are unchanged and no directory is lost |
| ModelFs.MakeDirsIdempotent | cleanup/photosorter.py:86 | creating the same folder a second time succeeds and changes nothing |
| ModelFs.MakeDirsAddsOnlyPrefixes | cleanup/photosorter.py:86 | the directories added are exactly the path and its ancestors |
| ModelFs.MkdirStep | cleanup/organize_files.py:106 | `mkdir(exist_ok=True)` fails exactly when the path is not a directory and is a file, is the root, or has no parent directory; otherwise it adds just that directory |
| ModelFs.MoveStep | cleanup/organize_files.py:128 | `shutil.move` fails exactly when the source is no file or the target is a directory or has no parent directory; otherwise the target holds the source's contents, the source is gone, and directories are unchanged |
| ModelFs.MoveKeepsOthers | cleanup/organize_files.py:128 | a move changes no file other than its source and target |
| ModelFs.MoveKeepsCount | cleanup/photosorter.py:174 | moving to a free path keeps the number of files |
| ModelFs.CopyStep | cleanup/photosorter.py:172 | `shutil.copy2` fails exactly when a move would or source and target coincide; otherwise only the target changes, to the source's contents |
| ModelFs.CopyAddsOne | cleanup/photosorter.py:172 | copying to a free path adds exactly one file and keeps every other |
| ModelFs.Disk.MakeDirs | cleanup/photosorter.py:86 | the disk changes as `MakeDirsStep` says, and not at all when it fails |
| ModelFs.Disk.Mkdir | cleanup/organize_files.py:106 | the disk changes as `MkdirStep` says, and not at all when it fails |
| ModelFs.Disk.Move | cleanup/organize_files.py:128 | the disk changes as `MoveStep` says, and not at all when it fails |
| ModelFs.Disk.Copy | cleanup/photosorter.py:172 | the disk changes as `CopyStep` says, and not at all when it fails |
| OrganizeFiles.FirstMatch | cleanup/organize_files.py:84-88 | the result is the first category in table order whose set holds the extension, and `None` exactly when none does |
| OrganizeFiles.FileCategory | cleanup/organize_files.py:76-88 | a name whose lowered form ends in `.tar.gz`, `.tar.bz2` or `.tar.xz` is `Archives`; any other gets the first table match of its lowered suffix |
| OrganizeFiles.UnknownType | cleanup/organize_files.py:84-88 | a name has no category exactly when it is no tarball and its lowered suffix is in no category |
| OrganizeFiles.MdIsDocument | cleanup/organize_files.py:23-53 | `.md` is listed under Games too, but is classified Documents |
| OrganizeFiles.IsoIsArchive | cleanup/organize_files.py:42-53 | `.iso` is listed under Games too, but is classified Archives |
| OrganizeFiles.ImgIsArchive | cleanup/organize_files.py:42-53 | `.img` is listed under Games too, but is classified Archives |
| OrganizeFiles.HtmlIsDocument | cleanup/organize_files.py:23-63 | `.html` is listed under Code too, but is classified Documents |
| OrganizeFiles.XmlIsDocument | cleanup/organize_files.py:23-63 | `.xml` is listed under Code too, but is classified Documents |
| OrganizeFiles.KeyIsPresentation | cleanup/organize_files.py:30-63 | `.key` is listed under Code too, but is classified Presentations |
| OrganizeFiles.ShouldSkip | cleanup/organize_files.py:90-97 | skip exactly when the lowered name is a known system file, or the name starts with `.` and is longer than one character, or the path is a directory |
| OrganizeFiles.QueueMembers | cleanup/organize_files.py:152-162 | a file is queued with a category exactly when it is listed, is a regular file that is not skipped, and has that category; unknown types are never queued |
| OrganizeFiles.CategoryOrderFacts | cleanup/organize_files.py:149-160 | the grouping keys are the categories of queued files, each once, in order of first appearance; there are none exactly when nothing is queued |
| OrganizeFiles.GroupMembers | cleanup/organize_files.py:159-160 | a name is in a category's list exactly when it was queued with that category |
| OrganizeFiles.FileLandsInItsGroup | cleanup/organize_files.py:152-162 | each eligible file with a category lands in exactly its category's list, and nothing else lands in a list |
| OrganizeFiles.MovingOrderIsQueue | cleanup/organize_files.py:192-197 | the moving loops visit each queued file once: as a multiset, the visits are the queued names |
| OrganizeFiles.MovingOrderLength | cleanup/organize_files.py:188-203 | the moving loops make exactly as many attempts as there are queued files |
| OrganizeFiles.MoveOne | cleanup/organize_files.py:195-203 | each attempt counts one move or one failure; it moves exactly when the file is still there and the category folder is a directory, and then the file's contents sit at a name that was free in that folder; directories and the number of files are kept |
| OrganizeFiles.MoveNames | cleanup/organize_files.py:195-203 | the inner loop adds one count per name, keeps directories and the number of files |
| OrganizeFiles.MoveGroups | cleanup/organize_files.py:192-203 | both loops add one count per visited name, keep directories and the number of files |
| OrganizeFiles.WithCategoryFolders | cleanup/organize_files.py:99-112 | after the folder step every needed category path exists, and files are unchanged |
| OrganizeFiles.MoveFileSafely | cleanup/organize_files.py:114-132 | the file goes to `Resolve` of the destination; success, the new disk and the returned path are those of that move |
| OrganizeFiles.CollectFiles | cleanup/organize_files.py:148-162 | the collecting loop's key order, groups and skipped names are those of the listing |
| OrganizeFiles.CollectEntry | cleanup/organize_files.py:152-162 | one listed entry extends the key order, groups and skipped names as one more listed name does |
| OrganizeFiles.CreateCategoryFolders | cleanup/organize_files.py:99-112 | the loop creates exactly the missing category folders, whatever the order of the set |
| OrganizeFiles.MoveOneFile | cleanup/organize_files.py:195-203 | one attempt on the disk is `MoveOne` |
| OrganizeFiles.MoveGroup | cleanup/organize_files.py:195-203 | the inner loop on the disk is `MoveNames` |
| OrganizeFiles.MoveAll | cleanup/organize_files.py:192-203 | the outer loop on the disk is `MoveGroups`, from zero counts |
| OrganizeFiles.OrganizeFolder | cleanup/organize_files.py:134-211 | fails on a folder that is no directory or a declined prompt; succeeds without change when nothing is queued; otherwise creates the folders and moves, and `moved + failed` equals the number of queued files; the filesystem stays well formed with as many files |
| PhotoSorter.FirstDateTag | cleanup/photosorter.py:27-32 | the value of the first entry PIL lists under `DateTimeOriginal` or `DateTime`, and `None` exactly when there is none |
| PhotoSorter.ExifreadDate | cleanup/photosorter.py:36-53 | a date only from tags that hold one of the two names; when `EXIF DateTimeOriginal` is present, only it is read |
| PhotoSorter.ExifDate | cleanup/photosorter.py:17-53 | any date found is a valid date-time |
| PhotoSorter.PhotoDate | cleanup/photosorter.py:63-75 | the EXIF date, tagged Exif, exactly when there is one; otherwise the modification time, tagged FileModified |
| PhotoSorter.PilDateWins | cleanup/photosorter.py:24-32 | a readable date in PIL's first date entry is the photo's date, whatever exifread holds |
| PhotoSorter.PilFailureFallsThrough | cleanup/photosorter.py:22-34 | an unreadable PIL date falls through to exifread |
| PhotoSorter.ExifreadNoFallback | cleanup/photosorter.py:41-53 | an unreadable `EXIF DateTimeOriginal` gives no date although `Image DateTime` is readable; without it, `Image DateTime` is read |
| PhotoSorter.DatePath | cleanup/photosorter.py:77-88 | the folder is the base followed by three levels of 4, 2 and 2 digits |
| PhotoSorter.DatePathReadsBack | cleanup/photosorter.py:81-85 | the three levels read back as the year, month and day |
| PhotoSorter.DatePathInjective | cleanup/photosorter.py:81-85 | two dates share a folder exactly when they share year, month and day |
| PhotoSorter.DatePathExample | cleanup/photosorter.py:81-85 | 7 March 2024 goes to `base/2024/03/07` |
| PhotoSorter.SupportedFormatExactly | cleanup/photosorter.py:90-95 | a name is supported exactly when it is a non-empty stem followed by one of the six listed suffixes |
| PhotoSorter.UpperCaseAccepted | cleanup/photosorter.py:94-95 | `.JPG` is accepted |
| PhotoSorter.MixedCaseRefused | cleanup/photosorter.py:94-95 | matching is case-sensitive: `.Jpg` is refused |
| PhotoSorter.HiddenNameRefused | cleanup/photosorter.py:95 | a name that is only `.jpg` has no suffix and is refused |
| PhotoSorter.Destination | cleanup/photosorter.py:154-163 | the target is free and sits in the date folder |
| PhotoSorter.Place | cleanup/photosorter.py:152-174 | placing fails exactly when the date folder cannot be created; otherwise the filesystem stays well formed, keeps its directories and holds the `YYYY/MM/DD` date folder |
| PhotoSorter.PlaceDryRun | cleanup/photosorter.py:153-174 | a dry run changes no file, yet it creates the date folder: its result is exactly the `mkdir(parents=True)` of the date path |
| PhotoSorter.PlaceCopy | cleanup/photosorter.py:171-172 | a copy keeps every file and adds one with the photo's contents in its date folder |
| PhotoSorter.PlaceMove | cleanup/photosorter.py:173-174 | a move keeps the number of files; the photo leaves its place for a new path in its date folder |
| PhotoSorter.ProcessPhoto | cleanup/photosorter.py:134-180 | a turn keeps the filesystem well formed and loses no directory |
| PhotoSorter.ProcessPhotoCounts | cleanup/photosorter.py:134-180 | a turn counts every regular file in `total_files`; each supported file adds one to exactly one of `processed` and `errors` and to exactly one date source, and no counter goes down; `skipped` is never touched |
| PhotoSorter.ErrorOnlyWhenFolderBlocked | cleanup/photosorter.py:142-180 | a supported file is an error exactly when some level of its date folder is an existing file |
| PhotoSorter.ProcessPhotoFiles | cleanup/photosorter.py:169-176 | a dry-run turn changes no file; a copying turn keeps every file and adds one per processed photo; a moving turn keeps the number of files; a supported photo that is not an error has its date folder afterwards |
| PhotoSorter.ProcessAll | cleanup/photosorter.py:134-180 | the loop keeps the filesystem well formed and loses no directory |
| PhotoSorter.ProcessAllCounts | cleanup/photosorter.py:134-187 | over a run, `processed + errors == exif_used + file_date_used`, at most one file is counted per listed path, and `skipped` stays 0 |
| PhotoSorter.ProcessAllFiles | cleanup/photosorter.py:134-180 | a dry run changes no file; a copying run keeps every file and adds one per processed photo; a moving run keeps the number of files |
| PhotoSorter.ProcessAllCountersGrow | cleanup/photosorter.py:134-180 | `total_files`, `processed`, `errors`, `exif_used` and `file_date_used` never decrease over a run |
| PhotoSorter.DryRunTurn | cleanup/photosorter.py:153-178 | a dry-run turn changes no file, loses no directory and no error, and leaves the date folder of a photo it processed |
| PhotoSorter.DryRunLeavesDateFolders | cleanup/photosorter.py:134-178 | a dry run changes no file, yet after a run without errors every listed supported photo's date folder exists |
| PhotoSorter.PlaceOnDisk | cleanup/photosorter.py:152-174 | folder creation, the collision loop and the transfer on the disk are `Place`; a failure leaves the disk as it was |
| PhotoSorter.TallyOnDisk | cleanup/photosorter.py:146-180 | a dated supported file on the disk is placed and counted as `Tally` says |
| PhotoSorter.SortFileOnDisk | cleanup/photosorter.py:139-180 | a counted file on the disk is passed over when unsupported and otherwise dated, placed and counted |
| PhotoSorter.ProcessPhotoOnDisk | cleanup/photosorter.py:134-180 | one turn on the disk is `ProcessPhoto` |
| PhotoSorter.OrganizePhotos | cleanup/photosorter.py:97-180 | no counters and no change when the source does not exist or the destination cannot be created (there the script stops on an uncaught error); otherwise the destination is created, the loop on the disk is `ProcessAll` over the listing, and the counters are consistent |
| StringReplacer.GetNewName | cleanup/string_replacer.py:73-77 | `None` exactly when the search string is not in the name, otherwise the name with every occurrence replaced |
| StringReplacer.SameStringNeverRenames | cleanup/string_replacer.py:120-121 | replacing a string by itself never renames |
| StringReplacer.LongerReplacementRenames | cleanup/string_replacer.py:120-121 | a longer replacement passes the rename guard (`new_name and new_name != path.name`) for every entry whose name holds the search string; the rename itself can still fail, and is then not counted |
| StringReplacer.RewriteContent | cleanup/string_replacer.py:47-70 | a file is rewritten exactly when it is text holding the search string; otherwise its contents stay |
| StringReplacer.RewriteWithItself | cleanup/string_replacer.py:58-63 | rewriting with the search string itself writes back what was there |
| StringReplacer.Entries | cleanup/string_replacer.py:96-105 | every path collected for an entry lies at or below it |
| StringReplacer.SubWalks | cleanup/string_replacer.py:96-105 | the walks of subdirectories lie strictly below the directory, each inside one of its subdirectories |
| StringReplacer.FileEntries | cleanup/string_replacer.py:99-101 | each file path is the directory followed by the name of one of its files |
| StringReplacer.EntriesPostOrdered | cleanup/string_replacer.py:96-105 | an entry's collected paths are bottom-up |
| StringReplacer.SubWalksPostOrdered | cleanup/string_replacer.py:96-105 | the subdirectories' walks together are bottom-up |
| StringReplacer.FileEntriesPostOrdered | cleanup/string_replacer.py:99-101 | a directory's files are bottom-up |
| StringReplacer.CollectPostOrdered | cleanup/string_replacer.py:88-105 | no collected path equals or lies inside a path collected before it; below a directory root every path is strictly inside the root, which is left out; a file root is collected alone |
| StringReplacer.RenameChildEffect | cleanup/string_replacer.py:122-124 | a rename within a directory succeeds exactly when the entry exists, the new name is valid, and the name is free or may be replaced; afterwards the new name finds the entry, the old finds nothing, other names are unchanged, and names stay distinct |
| StringReplacer.RenameAtEffect | cleanup/string_replacer.py:122-124 | the same, for an entry at any depth |
| StringReplacer.RenameAtKeeps | cleanup/string_replacer.py:122-124 | a path that starts with neither the old nor the new path keeps its kind |
| StringReplacer.RenameEffect | cleanup/string_replacer.py:122-124 | a rename changes only the last component: the entry now sits at `parent / new_name`, the old path is gone, other paths keep their kind, and the tree stays well formed |
| StringReplacer.SetText | cleanup/string_replacer.py:62-63 | writing a file keeps the name and kind of the tree |
| StringReplacer.SetTextWellFormed | cleanup/string_replacer.py:62-63 | writing a file keeps the tree well formed |
| StringReplacer.SetTextKind | cleanup/string_replacer.py:62-63 | writing a file changes no path's kind |
| StringReplacer.SetTextElsewhere | cleanup/string_replacer.py:62-63 | every path off the way to the written file finds what it found before |
| StringReplacer.SetTextHere | cleanup/string_replacer.py:62-63 | the written file holds the new text |
| StringReplacer.SetTextSame | cleanup/string_replacer.py:62-63 | writing back the text a file holds changes nothing |
| StringReplacer.TryRename | cleanup/string_replacer.py:119-128 | a rename happens only for a path with a name, when the new name is non-empty and differs from the old one, and is then the rename to that name |
| StringReplacer.Step | cleanup/string_replacer.py:113-140 | a turn adds at most one to each counter, at most one rename in all; only a file can be rewritten or counted as a renamed file, only a directory as a renamed directory |
| StringReplacer.ReplaceTree | cleanup/string_replacer.py:80-152 | `process_directory` does nothing exactly when the root does not exist |
| StringReplacer.ProcessPathsCounts | cleanup/string_replacer.py:107-140 | over the loop, rewrites and renames each grow by at most one per path |
| StringReplacer.ReplaceTreeCounts | cleanup/string_replacer.py:107-152 | for any tree, rewritten files are at most the collected paths, and renames are at most the collected paths plus the root |
| StringReplacer.ReplaceTreeCountsByKind | cleanup/string_replacer.py:107-152 | in a well-formed tree, rewritten files and renamed files are each at most the collected paths that are files, and renamed directories at most the collected directories plus the root |
| StringReplacer.ProcessPathsByKind | cleanup/string_replacer.py:112-140 | over a bottom-up list of existing paths, every path still to come keeps its original kind, so each counter grows only for paths of its own kind |
| StringReplacer.StepKeepsExisting | cleanup/string_replacer.py:113-140 | a turn changes the kind of no existing path outside the processed one, including one its rename lands on |
| StringReplacer.RenameLanding | cleanup/string_replacer.py:122-124 | a rename changes the kind of no existing path outside the renamed entry: onto an existing entry it succeeds only when a file replaces a file or a directory replaces an empty directory |
| StringReplacer.CollectExist | cleanup/string_replacer.py:91-105 | every collected path exists in the tree the walk was taken from |
| StringReplacer.StepWellFormed | cleanup/string_replacer.py:113-140 | a turn keeps the tree well formed |
| StringReplacer.StepKeepsOtherPaths | cleanup/string_replacer.py:113-140 | a turn changes the kind of no path that starts with neither the processed path nor its renamed path |
| StringReplacer.ProcessPathsWithItself | cleanup/string_replacer.py:113-140 | replacing a string by itself renames nothing and leaves the tree as it was |
| StringReplacer.ReplaceTreeWithItself | cleanup/string_replacer.py:80-152 | the whole run with equal strings renames nothing and leaves the tree as it was |
| StringReplacer.StepOnFile | cleanup/string_replacer.py:114-128 | processing a file never leaves a directory at its path |
| StringReplacer.ReplaceTreeOnFile | cleanup/string_replacer.py:91-93 | a file root is the only path processed, and no directory is renamed |
| StringReplacer.LaterPathsSurvive | cleanup/string_replacer.py:88-140 | in the collected order a turn never changes the kind of a later path, unless its rename lands on it |
| StringReplacer.Volume.WriteText | cleanup/string_replacer.py:62-63 | the volume changes as `SetText` says |
| StringReplacer.Volume.RenameEntry | cleanup/string_replacer.py:124 | the volume changes as `Rename` says, and not at all when it raises |
| StringReplacer.ReplaceInFileContent | cleanup/string_replacer.py:47-70 | returns true exactly when the file is text holding the search string, and then rewrites it with every occurrence replaced |
| StringReplacer.RenameIfNeeded | cleanup/string_replacer.py:119-128 | renames exactly as `TryRename` says |
| StringReplacer.ProcessPath | cleanup/string_replacer.py:113-140 | one turn on the volume is `Step` |
| StringReplacer.ProcessAllPaths | cleanup/string_replacer.py:113-140 | the loop on the volume is `ProcessPaths`, from zero counters |
| StringReplacer.RenameRoot | cleanup/string_replacer.py:142-152 | the root's own rename on the volume is `RootStep` |
| StringReplacer.ProcessDirectory | cleanup/string_replacer.py:80-152 | does nothing when the root does not exist; otherwise the volume and counters are those of `ReplaceTree` |
| CsvToIcs.ParseTime | csv-to-ics.py:31-32 | a time that is read has an hour 0-23 and a minute 0-59 |
| CsvToIcs.NoColonExactly | csv-to-ics.py:31-32 | the run-ending `IndexError` happens exactly for a field without a colon whose whole text is an integer |
| CsvToIcs.ParseTimeRoundTrip | csv-to-ics.py:31-33 | a well-written `HH:MM` is read as its hour and minute |
| CsvToIcs.BareHourEndsRun | csv-to-ics.py:31-32 | `"10"` ends the run |
| CsvToIcs.OutOfRangeSkipped | csv-to-ics.py:32 | a two-digit hour past 23 or minute past 59 makes the row a skipped one |
| CsvToIcs.ExtraPartsIgnored | csv-to-ics.py:31-32 | seconds, or anything after a second colon, are ignored |
| CsvToIcs.AcceptedRow | csv-to-ics.py:20-38 | an accepted event has the row's name, starts and ends on the row's date at the hours and minutes of its time fields, with zero seconds |
| CsvToIcs.DateAtMidnight | csv-to-ics.py:28 | a parsed `%Y-%m-%d` date is at midnight |
| CsvToIcs.WellWrittenRowAccepted | csv-to-ics.py:20-38 | a row with well-written fields is accepted, whatever the order of start and end |
| CsvToIcs.CompactRoundTrip | csv-to-ics.py:33 | a DATE-TIME value reads back as the date-time it was written from |
| CsvToIcs.UidHasNoSpace | csv-to-ics.py:41 | the UID holds no space, and is the DTSTART value, a dash, and a text as long as the event name |
| CsvToIcs.VEventLines | csv-to-ics.py:45-53 | the seven block lines are BEGIN:VEVENT, UID, DTSTAMP, DTSTART, DTEND, SUMMARY, END:VEVENT |
| CsvToIcs.Outcomes | csv-to-ics.py:19-58 | every row has its own outcome, independent of the others |
| CsvToIcs.EventsAbort | csv-to-ics.py:55-64 | the run ends early exactly when some row raises an error the row handler does not catch |
| CsvToIcs.CalendarAbort | imageconvert/csv-to-ics.py:59-64 | no calendar is produced exactly when some row ends the run |
| CsvToIcs.EventsShape | csv-to-ics.py:19-54 | seven lines per accepted row, none for a skipped one, each block laid out in the fixed order |
| CsvToIcs.EventBlock | csv-to-ics.py:19-54 | the event of each accepted row comes right after the blocks of the rows accepted before it, stamped with that row's clock reading |
| CsvToIcs.CalendarHoldsEvent | csv-to-ics.py:9-66 | every accepted row's event is in the calendar, in row order, after the header |
| CsvToIcs.CalendarFrame | imageconvert/csv-to-ics.py:9-66 | the calendar opens with the three header lines and closes with END:VCALENDAR, even with no event |
| CsvToIcs.EventsStep | csv-to-ics.py:19-58 | a row that does not end the run adds its block, if any, to the lines of the rows before it |
| CsvToIcs.EventsAbortAt | csv-to-ics.py:59-64 | a row that ends the run leaves no calendar |
| CsvToIcs.GenerateIcs | csv-to-ics.py:7-66 | the row loop builds exactly `Calendar` of the rows, or nothing when a row ends the run |
| CsvToIcs.WriteIcs | csv-to-ics.py:69-72 | the text written is every line followed by `"\n"`, in order |
| CsvToIcs.RenderJoin | csv-to-ics.py:71-72 | the written text of a non-empty list is the lines joined by `"\n"` with one more at the end |
| CsvToIcs.RenderAsJoin | csv-to-ics.py:71-72 | the written text is the lines joined by `"\n"`, ending with `"\n"` |
| CsvToIcs.RenderSplit | csv-to-ics.py:71-72 | splitting the written text at `"\n"` gives back the lines and an empty remainder: each line ends in a single LF, not CRLF, as written on a POSIX host |

## Left out

- Printing, the `input()` confirmation prompts, `argparse` and `sys.argv`, and each script's `main` are left out. The organizer's answer to its prompt is the `confirmed` parameter of `OrganizeFiles.OrganizeFolder`.
- `Path.resolve()`, symbolic links, and relative paths are left out. Paths are sequences of names from the filesystem root.
- `iterdir()` and `rglob('*')` listings are parameters (`listing`), not computed from the snapshot.
  - Their order is the operating system's, which the scripts do not fix either.
  - The photo sorter's listing is fixed before its loop. Python's `rglob` is lazy, so a photo moved into a destination inside the source tree could be met again; the model does not capture that.
- Lowering is ASCII-only. Python's `str.lower` also folds non-ASCII letters.
- `int()` accepts only ASCII digits and white space here. Python also accepts other Unicode digits.
- `strptime` is strict: each field must be written at full width (four-digit year, two-digit month, day, hour, minute and second), and each literal character of the layout must appear once. Python also accepts a one-digit month, day, hour, minute or second, a space-padded day (`" 7"`), and any run of white space where the layout has a space. For the EXIF layout `%Y:%m:%d %H:%M:%S`, `2024:03:07  10:00:00`, with two spaces, is a date in Python and no date in the model. A date that Python accepts in such a spelling is therefore an unreadable EXIF date (the photo sorter) or a skipped row (the calendar converter) in the model.
- `strftime("%Y")` is written with four digits, as on glibc for years from 1000 on. Years below 1000 are written zero-padded, which glibc does not do.
- `datetime.fromtimestamp` of the modification time is not modelled. The metadata record already holds the time as a date-time (`PhotoMeta.mtime`).
- `datetime.now()` is the parameter `now`: `now(n)` is the clock reading when row `n` is converted.
- PIL and exifread decoding of the image file is not modelled. What they return is the `PhotoMeta` record:
  - PIL entries come as tag-name/value strings in iteration order;
  - exifread tags come as a map of strings.
  - A PIL value that is not a string (which makes `strptime` raise a `TypeError`, caught and sent on to exifread) is modelled as an unreadable string.
- `is_text_file` (mimetype guessing and the 512-byte sniff) is not modelled. A file's `text` is `None` exactly when the script would not treat it as text under the name it has when the walk collects it, or it fails to decode as UTF-8.
- The text/non-text decision is fixed per file and travels with the file through a rename. The script guesses the type from the current path's name on every turn. So a file renamed onto a later-listed path whose suffix guesses differently is judged anew in Python, and not in the model. Example: with search `bin` and replace `txt`, `x.bin` holding `hello bin` is renamed over `x.txt` listed after it. Python then rewrites it on the `x.txt` turn; the model does not.
- Read and write errors of file contents are left out, as are permission errors and other I/O failures. The failures modelled are the ones the filesystem's own shape causes:
  - a missing source;
  - a file in the way of a directory;
  - an invalid or occupied rename target.
- In the model, `mkdir` in `create_category_folders` cannot fail: the folder is a directory and the category path does not exist yet. The `OSError` path (a permission error) that makes `organize_folder` return `False` there is not modelled.
- `shutil.move` onto an existing directory (which moves the file into it) is modelled as a failure. The destinations the scripts compute are never existing directories, because they are probed free first. The organizer's category folder can, however, be a file; that case is a counted failure.
- The model assumes a POSIX host throughout. Text-mode writes end lines with `\n` (on Windows Python writes `os.linesep`, CRLF), and `os.rename` follows POSIX:
  - it replaces an existing file with a file, and an empty directory with a directory;
  - it fails for any other collision;
  - it fails for an empty name, `.`, `..`, or a name holding NUL.
  - Windows rules, including CRLF line endings on written files, are left out.
- A replacement that puts `/` into a name is a failed rename in the model (`StringReplacer.ValidName`). In Python, `path.parent / new_name` splits such a name into components. A trailing `/` (`b/`) still renames the entry to `b`. An inner `/` (`x/y`) moves the entry into an existing directory `x`. A leading `/` makes the target an absolute path. The model does not capture these renames and moves.
- `os.walk` errors and the walk's handling of symbolic links are left out. The walk lists each directory's subdirectories and files in the tree's order.
- Files are read and written in text mode, so Python translates CRLF and CR line endings to LF on reading. A file's `text` is its content after that translation: a search string holding `\r` never occurs in it, and on a POSIX host a rewrite writes the file back with LF endings. The model does not capture the bytes on disk before the translation.
- CSV reading is not modelled: `open`, `csv.DictReader` quoting and dialects, the header row, and `FileNotFoundError` and other read errors that end the run with `sys.exit(1)`. The rows are a parameter.
- A write failure of the `.ics` file (and its `sys.exit(1)`) is left out. `CsvToIcs.WriteIcs` returns the text that is written.
- The script does not fold long lines or escape text values, and on a POSIX host it does not end lines with CRLF (RFC 5545, sections 3.1 and 3.3.11). Neither does the model. `CsvToIcs.RenderSplit` states the LF endings.
- The check-then-move race between concurrent runs is left out, since the scripts are single-threaded.
- `icns-to-pngs.py` and `imageconvert/svg-to-png.py` are not part of this model. They only call image libraries.
