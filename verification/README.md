# HDR-to-SDR batch converter and prefix organizer, in Dafny

This project models `main.py`, a small Python script that does two things:

- **`convert_hdr_to_sdr(input_folder, output_folder)`**:
  - Stops with an error if the input folder does not exist.
  - Otherwise creates the output folder if it is missing.
  - Selects the video files of the input folder by extension, ignoring case and keeping listing order.
  - Runs ffmpeg once per selected file, writing a file of the same name into the output folder.
  - A run that ends with a non-zero exit code is reported and skipped.
  - A run that ends with zero advances a progress bar and is reported with the file's position in the list.
- **`organize_files(output_folder)`**:
  - Takes the visible regular files of the folder.
  - Groups them by the text before their first `-` with surrounding whitespace stripped; this is the prefix.
  - Keeps the groups in order of first appearance.
  - Moves each group of two or more files into the subfolder `output_folder/prefix`, creating the subfolder first if that path does not exist.

The outside world is taken as input:

- A directory listing is a sequence of names. For the organizer, each name comes with whether it is a regular file.
- Whether a folder exists is a boolean for the converter and a set of existing paths for the organizer.
- ffmpeg is one exit code per selected file.

What the script does to the outside world comes back as values:

- The converter returns a trace of effects (`MakeDirs`, `Ffmpeg`), the list of printed per-file messages, and the final progress count.
- The organizer returns the folders it creates and the moves it makes, in order. `AfterOrganize` describes the top level of the folder once those moves have happened.

Files:

- `seqs.dfy`: `Filter`, the order-preserving selection that Python list comprehensions with an `if` compute.
- `text.dfy`: the string and POSIX path operations the script uses. These are `str.lower`, `str.endswith`, `str.startswith`, `str.split(sep)[0]`, `str.strip()`, `os.path.join`, and `os.path.basename` (the last one only for stating properties).
- `convert.dfy`: the converter. Its `ProgressBar` class is the tqdm bar, updated in place. `ConvertEach` is the conversion loop; `ConvertHdrToSdr` is the whole function.
- `organize.dfy`: the organizer. `GroupByPrefix` is the loop that builds the prefix dictionary, with its keys in insertion order. `PlanMoves` is the loop over its items. `OrganizeFiles` is the whole function.

## Model

| member | source | states |
|---|---|---|
| Convert.SelectVideos | main.py:22-24 | A name is selected exactly when it is in the listing and its lower-cased form ends with one of `.mp4 .mkv .mov .avi .flv .wmv` |
| Convert.SelectionCounts | main.py:23-25 | Each video name is selected as often as it is listed and no other name is selected, so `total_files` counts the listed video files |
| Seqs.FilterIsOrderedSubsequence | main.py:23-24 | The selection is an ordered subsequence. It keeps exactly the positions whose element passes the test, in increasing order, with the element of each |
| Convert.NotVideoByLastChar | main.py:22-24 | A name whose lower-cased last character is not `4`, `v` or `i` is never selected |
| Convert.SelectionExample | main.py:22-24 | `Trip.MKV` is selected (case-insensitive), `clip.mp4.part` and `notes.txt` are not (only the end counts), and listing order is kept |
| Text.JoinKeepsBaseName | main.py:33-34 | Joining a folder with a single path component gives a path whose base name is that component |
| Convert.JobsKeepFileName | main.py:32-34 | The input and output paths of every run have the file's own name as their base name; only the folder differs |
| Convert.ProgressBar.constructor | main.py:30 | A new bar has the given total and a count of 0 |
| Convert.ProgressBar.Update | main.py:66 | `update(k)` advances the count by exactly `k` |
| Convert.ConvertEach | main.py:30-69 | Exactly one ffmpeg run per selected file, in list order, whatever the earlier exit codes. A non-zero code gives an error message and the loop goes on. A zero code gives "Converted i/total" with the file's 1-based position. The final bar count is the number of zero exit codes, and the count never exceeds the bar's total |
| Convert.ConvertHdrToSdr | main.py:7-71 | A missing input folder gives the not-found error with no effect, message or progress. Otherwise there is no error, and `MakeDirs(output)` comes first exactly when the output folder is missing. The runs, messages and progress of `ConvertEach` then follow on the selected files |
| Convert.ProgressCountsConversions | main.py:62-67 | The progress count equals the number of "Converted" messages |
| Convert.ProgressCompleteIffAllSucceeded | main.py:62-66 | The progress count never exceeds the number of files. It reaches it exactly when every run exits with 0 |
| Convert.PositionIsNotSuccessCount | main.py:62-67 | With exit codes `[1, 0]` the second file is reported as "2/2" while the bar stands at 1: the printed number is the position, not the success count |
| Organize.CandidatesMembership | main.py:75-77 | A name is a candidate exactly when some listed entry with that name is a regular file not starting with `.` |
| Text.BeforeFirstShape | main.py:81 | `split('-')[0]` is the longest start of the name without `-`. It is followed by `-` unless it is the whole name |
| Text.StripShape | main.py:81 | `strip()` gives a slice of its argument with only whitespace around it. The slice neither starts nor ends with whitespace |
| Organize.PrefixShape | main.py:81 | A prefix never contains `-`, is empty or has no surrounding whitespace, consists of characters of the name, and is the stripped name when the name has no `-` |
| Organize.DashNamePrefix | main.py:81 | A name whose first `-` is at position n has the stripped text before position n as its prefix |
| Organize.PlainNamePrefix | main.py:81 | A non-empty name without `-` and without surrounding whitespace is its own prefix |
| Organize.PrefixExamples | main.py:81 | `A - one.mp4` and `A-two.mp4` both have prefix `A`; `movie.mp4` is its own prefix |
| Organize.DashFirstPrefix | main.py:81 | A name starting with `-` has the empty prefix |
| Organize.FirstSeenKeys | main.py:79-84 | Every prefix of a scanned file becomes a key of the dictionary, exactly once, and nothing else does |
| Organize.FirstSeenOrder | main.py:79-86 | The keys come in the order of their first occurrence among the scanned files |
| Organize.MembersMembership | main.py:80-84 | A file is in the list of prefix p exactly when it was scanned and its prefix is p |
| Organize.MembersInScanOrder | main.py:80-84 | A group lists its files in scan order. Its k-th file sits at the k-th of the increasing positions whose prefix is p, and every such position is used |
| Organize.MembersCount | main.py:80-84 | The list of p holds each file with prefix p as often as it was scanned, and nothing else |
| Organize.GroupsPartitionFiles | main.py:79-84 | Listed group after group in key order, the lists are a permutation of the scanned files |
| Organize.GroupsOfAppend | main.py:81-84 | Scanning one more file appends it to its prefix's list, which is created empty for a new prefix. The other lists are unchanged |
| Organize.AddToGroup | main.py:82-84 | A new prefix is appended to the keys with an empty list, then the file is appended to its prefix's list. Nothing else changes |
| Organize.GroupByPrefix | main.py:79-84 | The loop ends with keys in first-seen order and each key's list equal to the files with that prefix in scan order. A prefix has a list exactly when it is a key |
| Organize.PlanMoves | main.py:86-96 | For each key in order with more than one file, the folder is created when its path does not exist. Then every file of the list is moved into it, in list order |
| Organize.MovePlanSpec | main.py:86-96 | A move of name x to folder f is planned exactly when x is a candidate, the group of x's prefix has more than one file, and f is `output_folder/prefix` |
| Organize.FoldersOverSpec | main.py:88-91 | A folder is created exactly when some move goes into it and its path did not exist before |
| Organize.OrganizeFiles | main.py:74-96 | The whole function returns the moves and created folders above, computed on the candidates of the listing |
| Organize.PairAndSingle | main.py:86-96 | For files a, b, c where a and b share a prefix and c does not: a and b are moved, in that order, into the folder of their prefix, and c is not moved |
| Organize.ShowExample | main.py:79-96 | `show-ep1.mp4` and `show-ep2.mp4` are moved to `/out/show`; `movie.mp4` stays |
| Text.JoinSameComponent | main.py:89 | Joining single components onto the output folder gives the same path string exactly when the components are equal. So only the prefixes `""`, `.` and `..` give the strings `out/`, `out/.` and `out/..` |
| Text.EmptyJoinStaysPut | main.py:89-96 | With the empty prefix the destination path is the file's own path |
| Organize.AfterOrganizeContents | main.py:74-96 | After the moves, hidden files and non-files are still at the top level. The visible regular files there are exactly the candidates not moved away. A move into `out/`, `out/.`, or `out/..` when the output folder is a root (`/`, `//`), does not move a file away |
| Organize.SecondRunPlansNothing | main.py:74-96 | For names that are single path components, where no moved group has a prefix whose folder is the output folder itself (`""`, `.`, and `..` at a root), a second run plans no move |
| Organize.NothingPlannedKeepsLayout | main.py:86-96 | A run that plans no move leaves the top level unchanged |
| Organize.SecondRunKeepsLayout | main.py:74-96 | Under the same conditions, a second run leaves the top level as the first run left it |
| Organize.EmptyPrefixMovesInPlace | main.py:89-96 | A planned move of a file with the empty prefix has the file's own path as destination |
| Organize.InPlacePairIsPlannedAgain | main.py:74-96 | Two visible files sharing the prefix `""` or `.`, or `..` at a root, are planned to move into the output folder itself. Organizing leaves the folder as it was, yet the same moves are planned again, so those prefixes are why the idempotence lemmas exclude them |
| Organize.EmptyPrefixIsPlannedAgain | main.py:74-96 | The same for two names starting with `-`, whose prefix is `""` |
| Organize.SpaceDotPrefix | main.py:81 | A name starting with ` .-` has the prefix `.` |
| Organize.DotPrefixIsPlannedAgain | main.py:74-96 | The same for two names starting with ` .-`, whose prefix is `.` and whose folder `out/.` is the output folder |
| Organize.SpaceDotDotPrefix | main.py:81 | A name starting with ` ..-` has the prefix `..` |
| Organize.RootParentPrefixIsPlannedAgain | main.py:74-96 | The same at a root output folder for two names starting with ` ..-`: their folder `out/..` is the root itself |
| Organize.InPlaceNamesPlannedAgain | main.py:74-96 | The same for `-a.mp4` and `-b.mp4` and for ` .-a.mp4` and ` .-b.mp4` in `/out`, and for ` ..-a.mp4` and ` ..-b.mp4` in `/` |
| Organize.ParentPrefixLeavesFolder | main.py:81-96 | A file in a multi-file group with the prefix `..` is moved into `out/..`. It leaves the top level exactly when the output folder is not a root, and no entry appears at the top level for its folder |

## Left out

- The ffmpeg command line and its tone-mapping filter (main.py:37-47) are left out. A run is recorded only by its input and output paths.
- The loop that streams ffmpeg's stderr to the console while the process runs (main.py:51-61) is left out. Only the final exit code is modelled.
- Launch failures are not modelled:
  - main.py:68 catches only `CalledProcessError`. An `OSError` from `Popen`, such as ffmpeg not being installed, would therefore end the whole run rather than being reported and skipped like a failed conversion.
  - The model follows the code in having no "reported launch failure" path. It assumes every launch succeeds.
- tqdm's rendering and all console output other than the per-file messages are left out. This includes the start and end lines, the stderr echo, and the listings printed by the main block.
- Convert.ConvertHdrToSdr: `os.path.abspath` is not applied. The folders are taken as already absolute.
- Convert.ConvertHdrToSdr: `os.listdir` and `os.path.exists` are inputs. An input path that exists but is not a directory, and any other error of the file system calls, is not modelled.
- Text.Lower: lower-cases only the ASCII capitals and the Kelvin sign. This is enough for every character that can lower-case into one of the six extensions, but not the rest of Unicode case mapping.
- Organize.OrganizeFiles:
  - `os.path.exists(folder_path)` is answered from `present`, the paths that exist before the run, spelled as `os.path.join` spells them. The folders of the prefixes `""`, `.` and `..` always exist, so `present` holds `out/`, `out/.` and `out/..` whenever those prefixes occur. Otherwise `FoldersOver` would list a `makedirs` the program never makes.
  - Folders created by earlier groups are not added to it. On a case-sensitive file system, distinct prefixes other than `""`, `.` and `..` give distinct folder paths. On a case-insensitive file system, such as the default on macOS, `Show` and `show` are distinct keys that name one folder. The program then creates that folder once and adds one top-level entry, but `FoldersOver` and `NewFolders` count two.
- Paths are compared as case-sensitive strings, with no normalisation. The exceptions are these:
  - `MovedAway` and `NewFolders` treat `out/` and `out/.` as the output folder itself.
  - At a root output folder, they also treat `out/..` as the output folder.
  - Elsewhere, `out/..` is treated as the parent folder.
- A group with the prefix `..` in an output folder that is not a root is moved out of the output folder, into its parent. The model records these moves and that the files leave the top level. It does not model the parent folder's contents.
- `os.makedirs` and `shutil.move` are recorded, not carried out. `AfterOrganize` assumes every move succeeds.
- Collisions, where a destination file of the same name exists or a regular file carries a prefix's name, and failed moves are left out.
- `os.path.isfile` is part of the listing entry, taken from the state before the run.
- The interactive main block (main.py:101-131), with its hard-coded folders, the yes/no prompt and the `os.walk` listing, is left out.
