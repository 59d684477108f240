# A verified model of the miniOS `ls`, `cd` and file-selector commands

This project models the logic of three small shell commands of a toy
operating system written in Python:

- `ls.py`:
  - the human-readable size `sizeof_fmt`;
  - the colour choice `get_file_color`;
  - `list_directory`, which reads a directory, drops hidden names, records
    metadata and sorts directories first, then by case-folded name;
  - `print_directory_listing`, which prints either a compact multi-column
    grid or a long one-line-per-entry listing;
  - the option scanner of `ls_command`.
- `fileread.py`: its copy of `sizeof_fmt`, `list_files`, and the numbered
  menu and choice check of `file_selector`.
- `cd.py`: `cd_command`, which resolves a requested directory against the
  current one and falls back to it when the target is not a directory.

The file system is abstract throughout:

- A directory is an already-read list of child records. Each child has its
  name, `isdir`, `access(X_OK)`, `getsize` and `getmtime`; each of the last
  two is None when the call would raise `OSError`.
- `listdir` can also fail with `FileNotFoundError` or `PermissionError`.
- `isdir` in `cd` is a predicate parameter.
- Printed output is a sequence of pieces: `Write(text)` for a `print(...,
  end="")` and `LineBreak` for a newline.

Modules, one concept each:

| module | file | models |
|---|---|---|
| `Wrappers` | wrappers.dfy | `Option` |
| `Text` | text.dfy | decimal text, padding (`:<w`, `:>w`), ASCII `lower`, Python's string `<=` |
| `SizeFormat` | size_format.dfy | `sizeof_fmt` of ls.py |
| `LsListing` | ls_listing.dfy | `get_file_color`, `list_directory`, the sort |
| `LsRender` | ls_render.dfy | `print_directory_listing` |
| `LsCommand` | ls_command.dfy | the token scan of `ls_command` |
| `FileRead` | fileread.dfy | fileread.py |
| `PosixPath` | posix_path.dfy | the `os.path` rules `cd` relies on: `isabs`, `join`, `normpath`, `abspath` |
| `Cd` | cd.dfy | `cd_command` |

The loops of the source are methods with loop invariants. Each one is proved
equal to a specification function, and the properties are lemmas about those
functions:

- `sizeof_fmt` (twice): `SizeFormat.SizeOf`, `FileRead.SizeOf`.
- The collection loop of `list_directory`: `LsListing.CollectEntries`.
- The two printing loops: `LsRender.CompactListing`, `LsRender.LongListing`.
- The token scan: `LsCommand.ScanOptions`.
- `list_files`: `FileRead.ListFiles`.
- The menu loop: `FileRead.MenuLines`.

`get_file_color`, the sort key, the choice check and `cd_command` are pure
expressions in the source and are functions here.

Where the code and its documentation disagree, the model follows the code:

- The compact cell width `max_len` is measured on the bare name (ls.py:113),
  before the `/` that ls.py:122 adds to a directory. A directory whose name
  is the longest therefore gets a cell exactly one character wider than its
  name plus `/`.
- The comment at ls.py:200 says the first non-flag argument is the path. The
  loop overwrites `path` at every non-flag token, so the last one wins
  (`LsCommand.LaterOperandWins`).

## Model

| member | source | states |
|---|---|---|
| SizeFormat.SizeOf | ls.py:5-11 | the division loop over the units returns exactly `SizeText(num, suffix)` |
| SizeFormat.Divisions | ls.py:7-10 | the unit index d is at most 6, with 1024^d <= \|n\| after a division and \|n\| < 1024^(d+1) before "Y" |
| SizeFormat.DivisionsLeast | ls.py:7-11 | the unit index d is at most 6; when d < 6, \|n\| < 1024^(d+1); and \|n\| >= 1024^j for every j <= d: the least index whose scaled value is below 1024, else "Y" |
| SizeFormat.DivisionsCharacterised | ls.py:7-11 | k is the unit index iff 1024^k <= \|n\| (for k > 0) and \|n\| < 1024^(k+1) (for k < 6) |
| SizeFormat.ScaledRange | ls.py:8-10 | the unrounded n / 1024^k lies below 1024 in magnitude unless the unit is "Y", and is at least 1 unless no division happened |
| SizeFormat.SizeTextRoundsUp | ls.py:8-10 | that bound is on the unrounded number: 1048575 bytes stay in KB and print as "1024.0KB" |
| SizeFormat.TenthsRounded | ls.py:9 | the kept tenths are within half a tenth of the value, and ties go to the even digit |
| SizeFormat.FixedOne | ls.py:9 | `:.1f` text: digits, a point and one digit, with a leading '-' exactly for negative values and no leading zero in the integer part other than a lone "0" |
| SizeFormat.FixedOneDenotes | ls.py:9 | reading the `:.1f` digits back gives the rounded tenths |
| SizeFormat.SizeText | ls.py:9-11 | the text is a one-decimal number followed by the chosen unit and the suffix |
| SizeFormat.SizeTextBytes | ls.py:8-9 | 0 and 1023 bytes print as "0.0B" and "1023.0B" |
| SizeFormat.SizeTextKilo | ls.py:8-10 | 1024 and 1536 bytes print as "1.0KB" and "1.5KB" |
| SizeFormat.SizeTextTera | ls.py:7-10 | 1024^4 bytes prints as "1.0TB" |
| Text.DigitsValueOfNatText | fileread.py:28 | the decimal text of n is all digits and reads back as n |
| Text.DigitsValue | fileread.py:32 | the value `int` gives a digit string is 0 exactly when every digit is '0' |
| Text.NatTextOfDigits | fileread.py:32 | a digit string (what `isdigit` accepts) without a leading zero is the decimal text of its value: `str(int(s)) == s` |
| Text.PadRight | ls.py:109 | `:<w` is the text followed by spaces up to width w, never truncated |
| Text.PadLeft | ls.py:109 | `:>w` is spaces up to width w followed by the text, never truncated |
| Text.Lower | ls.py:73 | every character is lowered, the length is kept |
| Text.LexLeTotal | ls.py:73 | Python's `<=` on strings is total |
| Text.LexLeTransitive | ls.py:73 | Python's `<=` on strings is transitive |
| Text.LexLeAntisymmetric | ls.py:73 | two strings each `<=` the other are equal |
| LsListing.FileColor | ls.py:13-20 | blue iff a directory (whatever the executable bit), green iff a non-directory executable, reset otherwise |
| LsListing.MakeEntry | ls.py:46-70 | the record keeps the child's name and `isdir`, joins the path, is executable iff accessible and not a directory, and holds a size or time other than 0 only when long format fetched it |
| LsListing.HiddenIsDotPrefix | ls.py:43 | a name is hidden exactly when it starts with '.' ("." is, "" and "a.b" are not) |
| LsListing.Collected | ls.py:41-70 | at most one record per child, and one for every child when hidden names are shown; no hidden name otherwise; no directory is executable; sizes are 0 for directories and in short format; times are 0 in short format |
| LsListing.CollectedExactly | ls.py:41-70 | each shown child has its record in the list, and each record comes from a shown child |
| LsListing.FetchEntry | ls.py:46-70 | the record of one child: size only for a non-directory in long format, time only in long format, and a failing `getsize` also skips `getmtime` |
| LsListing.CollectedStep | ls.py:41-44 | one more child appends its record exactly when it is shown |
| LsListing.CollectEntries | ls.py:41-70 | the collection loop produces `Collected(children, ...)` |
| LsListing.KeyOrder | ls.py:73 | the key `(not is_dir, name.lower())` puts any directory strictly before any file, orders each group by lowered name, and is equal exactly for same-kind entries with equal lowered names |
| LsListing.KeyLeReflexive | ls.py:73 | tuple `<=` on keys is reflexive |
| LsListing.KeyLeAntisymmetric | ls.py:73 | keys each `<=` the other are equal, so with totality and transitivity the key order is a total order |
| LsListing.KeyLeTotal | ls.py:73 | any two sort keys are comparable |
| LsListing.KeyLeTransitive | ls.py:73 | the key order is transitive |
| LsListing.Insert | ls.py:73 | inserting into a sorted list gives a sorted list with that one element more |
| LsListing.SortEntries | ls.py:73 | the sort returns a sorted permutation of its input |
| LsListing.InsertWithKey | ls.py:73 | inserting e leaves the entries of every other key in the same order and puts e before the entries of its own key |
| LsListing.SortStable | ls.py:73 | entries with equal keys keep the order in which `listdir` gave them |
| LsListing.SortedMeansDirectoriesFirst | ls.py:73 | in a sorted list no file precedes a directory, and within each group the lowered names are non-decreasing |
| LsListing.SortedRecords | ls.py:43-73 | the per-record facts (no hidden name, directories not executable, zero sizes) survive the sort |
| LsListing.CannotOpenMessage | ls.py:75-77 | the "Permission denied" complaint quotes the path between "ls: cannot open directory '" and "': Permission denied" |
| LsListing.CannotAccessMessage | ls.py:78-80 | the missing-directory complaint quotes the path between "ls: cannot access '" and "': No such file or directory" |
| LsListing.ListDirectory | ls.py:26-82 | a missing directory gives an empty list with the "cannot access" message, and an unreadable one an empty list with the "Permission denied" message; otherwise there is no message and the list is the sorted collected records, a permutation of them, with no hidden names unless asked, no executable directory and zero sizes where the source leaves them |
| LsListing.HiddenNamesScenario | ls.py:26-82 | children "b.txt", directory "A" and ".hidden" list as A, b.txt, and as A, .hidden, b.txt with hidden names shown |
| LsRender.DisplayName | ls.py:107 | the shown name (also at ls.py:122) is the bare name, followed by one '/' exactly for a directory |
| LsRender.LongestName | ls.py:113 | the value bounds every bare name length and is attained by one of them |
| LsRender.CellWidth | ls.py:113 | `max_len` is two more than some bare name's length, and every shown name is shorter than it |
| LsRender.Columns | ls.py:114-118 | `cols` is at least 1, and is 1 when the width is unknown or narrower than one cell |
| LsRender.ColumnsFit | ls.py:116 | when at least one cell fits, `cols` cells fit and `cols + 1` do not |
| LsRender.CompactCell | ls.py:121-124 | a cell is the colour, then the shown name left-aligned in the cell width, then the reset code, with the width as `:<max_len` gives it and only spaces between name and reset |
| LsRender.CellsAligned | ls.py:113-124 | every padded name is exactly `max_len` wide and ends in a space |
| LsRender.Chunks | ls.py:120-128 | row-major rows: none empty, none longer than cols, all but the last full, and together exactly the cells |
| LsRender.ChunksUnique | ls.py:120-128 | any split with those properties is `Chunks` |
| LsRender.ChunkCount | ls.py:120-128 | there are ceil(n / cols) rows |
| LsRender.Printed | ls.py:120-128 | after i cells, the output is empty iff i is 0, and otherwise ends with a newline iff i % cols == 0 or i is the last, and with cell i - 1 when not |
| LsRender.BreakTest | ls.py:127 | `(i + 1) % cols == 0` holds exactly when the open row has just become full |
| LsRender.PrintedIsChunks | ls.py:120-128 | printing each cell, with a newline after entry i iff (i + 1) % cols == 0 or i is last, prints the rows of `Chunks` each ended by a newline |
| LsRender.CompactListing | ls.py:111-128 | the compact loop prints the rows of `Chunks(cells, cols)` with `max_len` and `cols` as in the source |
| LsRender.EmitLines | ls.py:120-128 | emitted rows give one finished line per row holding that row's cells, and nothing after the last newline |
| LsRender.CompactShape | ls.py:111-128 | the compact output has ceil(n / cols) lines, each of 1 to cols cells, and its last line is ended |
| LsRender.SizeField | ls.py:103 | the size column is blank iff the entry is a directory; otherwise it ends with its unit and "B" |
| LsRender.LongLineFields | ls.py:102-109 | a long line is the colour, the shown name in at least 30 columns and a space, the size field right-aligned in at least 8 and a space, then the time and the reset code; every padding character is a space |
| LsRender.TotalLine | ls.py:98-99 | the header is "total " followed by digits without a leading zero (other than "0" itself) that read back as half the block count |
| LsRender.EmptyNotice | ls.py:92-94 | the notice quotes the listed path between "Directory '" and "' is empty." |
| LsRender.FormatLongLine | ls.py:102-109 | the long line is colour, the shown name padded to 30, the size right-aligned in 8, the time, reset |
| LsRender.LongListing | ls.py:96-109 | the long output is the total line followed by one line per entry in order |
| LsRender.LinedShape | ls.py:101-109 | writing texts one per line adds one finished line of one piece per text |
| LsRender.LongShape | ls.py:98-109 | the long output has n + 1 lines of one piece each, the last ended |
| LsRender.RenderListing | ls.py:84-128 | every listing ends its last line; an empty one prints exactly the notice line; compact mode prints `Chunks` rows, ceil(n / cols) lines of at most cols cells; long mode prints the total line and the entry lines |
| LsCommand.FlagIsDashPrefix | ls.py:187 | a token is a flag exactly when it starts with '-': "-" is one, "" and "a-" are not |
| LsCommand.FlagHas | ls.py:186-192 | a set flag comes from some token starting with '-' that contains its letter |
| LsCommand.LastOperand | ls.py:175-201 | the path is `base_dir` or one of the tokens that is not a flag |
| LsCommand.FlagHasMeans | ls.py:186-192 | the flag is set iff some token starting with '-' contains its letter |
| LsCommand.LastOperandMeans | ls.py:175-201 | the path is `base_dir` when every token is a flag, and otherwise the non-flag token that only flags follow |
| LsCommand.ScanStep | ls.py:186-201 | one more token adds exactly its own letters if it is a flag, and otherwise becomes the path |
| LsCommand.HelpSeen | ls.py:192-198 | a flag token containing 'h' anywhere makes the help flag true |
| LsCommand.ScanOptions | ls.py:174-201 | a split failure gives the parse error; the usage text `UsageLines` appears iff some flag contains 'h'; otherwise the run uses the last operand (or `base_dir`) and 'a' and 'l' as seen in any flag |
| LsCommand.LaterOperandWins | ls.py:199-201 | a plain token followed only by flags is the path, whatever came before |
| LsCommand.ScanExample | ls.py:168-201 | `-la docs src` lists `src` with both flags; `docs -ah` asks for help |
| FileRead.SizeOf | fileread.py:3-8 | fileread's copy of `sizeof_fmt` returns exactly the text of ls.py's for every input |
| FileRead.RegularFiles | fileread.py:10-17 | `list_files` keeps at most one item per directory entry |
| FileRead.RegularFilesSingle | fileread.py:14-16 | a single child is kept, paired with its size text, exactly when it is a regular file |
| FileRead.RegularFilesAppend | fileread.py:12-16 | filtering a concatenation gives the concatenation of the filtered parts, so the order of `listdir` is kept |
| FileRead.RegularFilesFromFiles | fileread.py:12-16 | every listed file is a regular-file child with `sizeof_fmt` of its size |
| FileRead.ListFiles | fileread.py:10-17 | the `list_files` loop returns `RegularFiles(children)` |
| FileRead.MenuLine | fileread.py:28 | the menu line is `str(number)`, ". ", the name and " (", then the size text and ")" |
| FileRead.MenuLines | fileread.py:27-28 | line i of the menu shows number i + 1 with the i-th file and its size |
| FileRead.Choose | fileread.py:32-36 | a choice is taken iff it is a non-empty digit string whose value n is in 1..len(files), and it names `files[n - 1]` |
| FileRead.ChooseMenuNumber | fileread.py:27-36 | typing the number a menu line shows selects that line's file |
| FileRead.ChosenIsListed | fileread.py:32-36 | a selected file is a listed one, with the number it was shown with |
| FileRead.ChooseExamples | fileread.py:32-36 | "01" picks the first file; "0", "" and "1a" pick nothing |
| FileRead.FileSelector | fileread.py:19-36 | no menu iff there are no regular files; otherwise the numbered menu, then a rejection iff the choice is invalid, or the chosen file |
| PosixPath.Join | cd.py:19 | an absolute second part replaces the first; otherwise the result is the first part, one '/' when it does not already end in one, then the second part |
| PosixPath.Split | cd.py:19 | the pieces between slashes contain no slash and join back to the path |
| PosixPath.SplitJoinSlash | cd.py:19 | splitting slash-joined slash-free pieces gives them back |
| PosixPath.Normpath | cd.py:19 | `normpath` never returns the empty string and keeps an absolute path absolute |
| PosixPath.Abspath | cd.py:19 | `abspath` is absolute when the path or the working directory is, and is `normpath` of an absolute path |
| PosixPath.NormpathAbsolute | cd.py:19 | `normpath` of an absolute path is one or two slashes followed by plain names joined by '/' |
| PosixPath.NormalIsFixed | cd.py:19 | a path in that normal form is its own `normpath` |
| PosixPath.NormpathIdempotent | cd.py:19 | normalising an absolute path twice is normalising it once |
| Cd.CdCommand | cd.py:3-26 | when the candidate is not a directory, the directory stays and the message names the requested path; otherwise the candidate is the new directory, with no message |
| Cd.Candidate | cd.py:15-19 | the candidate is absolute when the request, the current directory or the process directory is, and is the normalised request when that is absolute |
| Cd.Requested | cd.py:15-16 | a non-empty path is kept; the request is empty only when both the path and the home directory are |
| Cd.EmptyMeansHome | cd.py:15-16 | `cd` with an empty path behaves as `cd` to the home directory |
| Cd.AbsoluteIgnoresCurrent | cd.py:19 | an absolute request does not depend on the current directory; it is the request normalised |
| Cd.RelativeFromAbsolute | cd.py:19 | from an absolute current directory the process working directory is never consulted |
| Cd.ParentExample | cd.py:19 | `..` from /home/user resolves to /home |
| Cd.NewDirIsNormalAbsolute | cd.py:19-26 | whenever the directory changes, the new one is absolute and its own `normpath` |
| Cd.RefusedKeepsDirectory | cd.py:22-24 | a refused request keeps the current directory, and the candidate was not a directory |

## Left out

- Real file-system calls: `listdir`, `isdir`, `isfile`, `access`, `getsize`, `getmtime` and `exists`. The model takes their results as data: child records, a `DirListing` value, and an `isDir` predicate in `cd`.
- `os.stat(...).st_blocks` at ls.py:98 is platform-specific. The summed block count is a parameter `blocks` of `LsRender.RenderListing`.
- `os.get_terminal_size` at ls.py:115 is an `Option<nat>` width parameter. None stands for the `OSError` fallback.
- `format_time` (ls.py:22-24) is a parameter `formatTime`. It calls `strftime` and `localtime`, which depend on locale and time zone.
  - `getmtime` returns a float, which the model holds as an integer. Nothing shown is lost: `localtime` drops the fraction and `%H:%M` shows no seconds.
- `shlex.split` at ls.py:181 is a foreign library. `LsCommand.ScanOptions` takes its result: the tokens, or None when it raised `ValueError`.
- Printing and `input` are not modelled as effects:
  - output is a sequence of `Out` pieces or messages returned as values;
  - the typed choice is a parameter;
  - the usage text is the constant `UsageLines`, which `ScanOptions` returns in its `Usage` result;
  - the general parse-error message is not modelled.
- `ls()` (ls.py:130-164) is left out, including its `exists` check and its branch for a path that is a file. The same "cannot access" outcome of `list_directory` is modelled.
- The call from `ls_command` to `ls` is left out: `ScanOptions` ends with the decided `Run(path, allFiles, longFormat)`.
- cat.py is not part of this model. It has no logic beyond reading and printing.
- The file-reading loop of `file_selector` (fileread.py:39-41) is left out; `FileRead.FileSelector` ends with the selected name.
- posixpath itself is not part of this model. `PosixPath` states its documented string rules for the calls used:
  - `expanduser("~")` is a parameter `home`;
  - `os.getcwd()`, which `abspath` uses for a relative path, is a parameter `cwd`.
- SizeFormat.SizeOf: computes with exact rationals (num / 1024^k) and rounds the tenths half-to-even.
  - A Python float agrees with this while |num| <= 2^53; each division by 1024 is then exact.
  - Larger byte counts, where conversion to float already rounds, are not modelled.
- FileRead.SizeOf: the same exact-rational reading as `SizeFormat.SizeOf`.
- LsListing.SortEntries: a stable insertion sort on values, not the in-place Timsort that `list.sort` runs. Only the result (sorted, a permutation, stable) is modelled.
- Text.Lower: lowers ASCII letters only. `str.lower` also maps non-ASCII letters.
- FileRead.Choose: accepts ASCII digits only. `str.isdigit` also accepts other Unicode digits, some of which `int()` then rejects with an exception.
  - Choose also takes no account of the limit on integer string conversion in recent CPython releases (4300 digits by default). Beyond that limit `int(choice)` at fileread.py:32 raises `ValueError` and `file_selector` stops with a traceback. The model instead treats the choice as out of range and returns None. The limit depends on the interpreter version and its settings.
- FileRead.FileSelector: inherits the gap in `Choose`. Over the conversion limit the source raises; the model reports `InvalidChoice`.
- `listdir` errors other than `PermissionError` and `FileNotFoundError` are not modelled. ls.py:75-80 catches only those two, so any other `OSError` propagates out of `list_directory`: `NotADirectoryError`, or a name too long. `LsListing.DirListing` has no case for them.
- LsRender.RenderListing: always prints the total line and the entry lines in long mode. At ls.py:98, `os.stat` follows symlinks. For a dangling symlink, which `list_directory` keeps with zero size and time, `os.stat` raises `FileNotFoundError`. The long listing then aborts before anything is printed. The block count is a parameter here, so that failure is not modelled.
- Concurrency and changes to the directory between `listdir` and the per-entry calls are not modelled.
