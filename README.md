# DWD open-data grib downloader: a Dafny model

This project models the deterministic core of `src/dwd_opendata_server_api/main.py`,
a script that fetches ICON-D2 grib2 archives from the DWD open-data server and
reshapes grib_dump JSON. It covers four pieces:

- **the downloader** `download_grib_file(url, dest_folder)` (`Downloader`). It refuses
  a destination that does not exist before any request. It names the file after the
  last `/`-segment of the URL, with spaces turned into underscores. `requests.get`
  strips leading whitespace from the URL and raises before sending anything when what
  is left has no `http://` or `https://` scheme. It raises when the server cannot be
  reached in time. On an ok response the script opens the file, which empties it, and
  writes every non-empty chunk of the body, in order. On a non-ok status it writes
  nothing. Opening fails when the path names a directory, ends in `/` (a URL ending in
  `/` gives an empty name) or lies in a missing folder. The body is streamed, so
  reading it can fail part way (a dropped connection): the chunks read before the
  failure stay in the file and the call raises. The network is a function from URL to
  a `Response` (ok flag, status, body chunks, whether the body breaks after them),
  or no answer. The machine is a `Host` object: a set of directories, a map from
  path to bytes, and the log of URLs requested.
- **the whole-day planner** `download_whole_day(dest_folder)` (`DayPlanner`). It walks
  4 models × 8 run hours × 3 fields in `itertools.product` order, then member `i` in
  0..4 and level `j` in 0..64. The loops plan 31,200 calls of the downloader, one per
  coordinate, in lexicographic order, each (model, run hour, field) triple in one block
  of 325 consecutive calls. The model keeps the code's quirks and proves them:
  - the URL is built by `str.join` with the base URL as the *separator*, so it is
    `run_hour + base + field + base + archive` and starts with `/00`, not `http`;
  - the folder is `os.path.join(dest, "/00", "/u")`, and POSIX `join` drops
    everything before an absolute segment, so the folder is `/u`, `/v` or `/w` and the
    destination argument has no effect;
  - the date is `str(year)+str(month)+str(day)`, unpadded, so 11 January and
    1 November 2022 plan identical calls;
  - so the first call always raises: `FileNotFoundError` when `/u` is missing, and
    otherwise the refusal of a URL without a scheme. The day ends there, with nothing
    requested and nothing saved, whatever the server would answer.
- **the JSON flattener** `optimize_json(path_to_file)` (`JsonFlattener`). It turns
  `messages[0]`, a list of key/value records, into a dictionary in list order: a later
  key overwrites an earlier one. An empty `messages` list is an `IndexError`.
- **the output name** `file_name[:-5] + "_new" + file_name[-5:]`, with Python's slice
  bounds, written in the input file's directory.

`PyStr` writes out the Python string and `posixpath` operations these rely on:
`str(n)`, `split`, `join`, one-character `replace`, `rfind`, `rstrip`, slices with
negative bounds, `os.path.join` and `os.path.split`.

`download_whole_day` calls the downloader from inside its loops. The model first
collects the calls (`PlanWholeDay`) and then makes them in order (`DownloadWholeDay`),
stopping at the first exception. This is equivalent because building a call has no
effects. The `product` loop over (model, run hour, field) is written as three nested
loops in the same order.

## Model

| member | source | states |
|---|---|---|
| `PyStr.NatToString` | src/dwd_opendata_server_api/main.py:78 | `str(n)` is one or more decimal digits, a single digit exactly for n < 10 (no padding), no leading zero |
| `PyStr.NatToStringRoundTrip` | src/dwd_opendata_server_api/main.py:89 | reading the digits of `str(n)` back gives n |
| `PyStr.NatToStringInjective` | src/dwd_opendata_server_api/main.py:89 | distinct numbers get distinct texts, so member and level segments name the loop counters |
| `PyStr.Split` | src/dwd_opendata_server_api/main.py:23 | `split('/')` never returns an empty list and no part holds the separator |
| `PyStr.SplitJoin` | src/dwd_opendata_server_api/main.py:23 | joining the parts of a split with the separator gives back the string |
| `PyStr.SplitWithoutSeparator` | src/dwd_opendata_server_api/main.py:23 | a string without the separator splits into itself alone |
| `PyStr.SplitAtSeparator` | src/dwd_opendata_server_api/main.py:23 | splitting `a + sep + b` concatenates the splits of a and of b |
| `PyStr.LastSegment` | src/dwd_opendata_server_api/main.py:23 | `split('/')[-1]` holds no `/` |
| `PyStr.LastSegmentIsSuffix` | src/dwd_opendata_server_api/main.py:23 | the last segment is a suffix of the URL, preceded by `/` unless it is the whole URL |
| `PyStr.LastSegmentWithoutSlash` | src/dwd_opendata_server_api/main.py:23 | a URL without `/` is its own last segment |
| `PyStr.LastSegmentAfterSlash` | src/dwd_opendata_server_api/main.py:23 | whatever precedes the last `/` does not affect the last segment |
| `PyStr.JoinLast` | src/dwd_opendata_server_api/main.py:90 | a `str.join` of several items ends with the separator and the last item |
| `PyStr.Join` | src/dwd_opendata_server_api/main.py:90 | `sep.join(items)`; no contract of its own, its properties are `JoinThree`, `JoinLast` and `SplitJoin` |
| `PyStr.JoinThree` | src/dwd_opendata_server_api/main.py:90 | `sep.join((a, b, c))` is `a + sep + b + sep + c` |
| `PyStr.ReplaceChar` | src/dwd_opendata_server_api/main.py:23 | `replace(" ", "_")` keeps the length and changes exactly the spaces |
| `PyStr.ReplaceAbsent` | src/dwd_opendata_server_api/main.py:23 | replacing a character that does not occur changes nothing |
| `PyStr.RFind` | src/dwd_opendata_server_api/main.py:122 | `rfind` gives the index of the last occurrence, or -1 when there is none |
| `PyStr.RStrip` | src/dwd_opendata_server_api/main.py:122 | `rstrip` removes exactly the trailing run of the character |
| `PyStr.SliceBound` | src/dwd_opendata_server_api/main.py:129-130 | a slice bound counts from the end when negative; a bound before the start becomes 0 and one past the end becomes the length |
| `PyStr.SliceTo` | src/dwd_opendata_server_api/main.py:129 | `s[:i]`; no contract of its own, its bounds are those of `SliceBound` and its use is stated by `NewName` |
| `PyStr.SliceFrom` | src/dwd_opendata_server_api/main.py:89 | `s[i:]`, also `time_stamp[1:]` and `field[1:]`; no contract of its own, its bounds are those of `SliceBound` |
| `PyStr.PosixSplit` | src/dwd_opendata_server_api/main.py:122 | `os.path.split` gives as tail everything after the last `/`, and as head the path before it with trailing slashes removed (kept when all slashes); the head is empty exactly when the path has no `/` |
| `PyStr.PosixJoin` | src/dwd_opendata_server_api/main.py:24 | `os.path.join` on POSIX; no contract of its own, its properties are `PosixJoinKeepsParts` and `JoinThenSplit` |
| `PyStr.PosixJoinKeepsParts` | src/dwd_opendata_server_api/main.py:85 | the joined path ends with the second part and, unless that part is absolute, starts with the first |
| `PyStr.JoinThenSplit` | src/dwd_opendata_server_api/main.py:122-132 | joining a split head with a slash-free name and splitting again gives back head and name |
| `PyStr.LStrip` | src/dwd_opendata_server_api/main.py:27 | `url.lstrip()`, as `requests` applies it to the URL: a suffix of the text, starting with a non-space, after a run made only of whitespace |
| `PyStr.IsSpace` | src/dwd_opendata_server_api/main.py:27 | the characters `str.isspace` accepts; no contract of its own, used by `LStrip` |
| `PyStr.LowerAscii` | src/dwd_opendata_server_api/main.py:27 | lower-casing maps `A`..`Z` to `a`..`z` and leaves every other character alone |
| `Downloader.PathExists` | src/dwd_opendata_server_api/main.py:20 | `os.path.exists`: a directory or a file of that name; no contract of its own, used by `Download` |
| `Downloader.FileName` | src/dwd_opendata_server_api/main.py:23 | the saved name is the last URL segment with every space replaced by `_`: same length, no `/`, no space; a URL with neither is its own name |
| `Downloader.FilePath` | src/dwd_opendata_server_api/main.py:24 | `os.path.join(dest_folder, filename)`; no contract of its own, its value is stated by `Download` and `SavedUnderLastName` |
| `Downloader.HasHttpScheme` | src/dwd_opendata_server_api/main.py:27 | the URLs `requests.get` sends: those that start, in any case and after leading whitespace is stripped, with `http://` or `https://`; no contract of its own, used by `Download` |
| `Downloader.SlashFirstHasNoScheme` | src/dwd_opendata_server_api/main.py:27 | a URL starting with `/` has nothing to strip and is refused |
| `Downloader.CanCreate` | src/dwd_opendata_server_api/main.py:30 | when `open(file_path, 'wb')` succeeds: the folder exists, and the path is not empty, does not end in `/` and is not a directory; no contract of its own, used by `Download` |
| `Downloader.Concat` | src/dwd_opendata_server_api/main.py:31-33 | the bytes a sequence of writes leaves; no contract of its own, its properties are `ConcatSnoc` and `EmptyChunksContributeNothing` |
| `Downloader.NonEmpty` | src/dwd_opendata_server_api/main.py:31-32 | the chunks `if chunk:` lets through are all non-empty and no more than were received |
| `Downloader.ConcatSnoc` | src/dwd_opendata_server_api/main.py:31-33 | writing one more chunk appends it to the bytes written so far |
| `Downloader.EmptyChunksContributeNothing` | src/dwd_opendata_server_api/main.py:31-33 | skipping empty chunks leaves the concatenated body unchanged |
| `Downloader.Download` | src/dwd_opendata_server_api/main.py:13-37 | a missing destination, and then a URL without an http(s) scheme, raise with no request and no change; otherwise the URL is requested; when the open succeeds after an ok response, the file at `join(dest, name)` holds the chunks read, even when the body breaks later, and no other path changes; otherwise no file changes; directories never change |
| `Downloader.DownloadOutcome` | src/dwd_opendata_server_api/main.py:13-37 | each outcome exactly when it happens: a network error when there is no answer, or when the body breaks while it is printed or written; a non-ok status, with its code, when the body reads through; an open failure, naming the path, after an ok response; saved, at `join(dest, name)`, when the body is written in full |
| `Downloader.Host.constructor` | src/dwd_opendata_server_api/main.py:13-37 | a machine with the given directories and files and no requests yet |
| `Downloader.WrittenSoFar` | src/dwd_opendata_server_api/main.py:31-33 | one more pass of the write loop appends the chunk, or leaves the file as it was when the chunk is empty |
| `Downloader.Host.WriteChunks` | src/dwd_opendata_server_api/main.py:29-33 | opening the file empties it; after the loop it holds the non-empty chunks in order; no other path, no directory and no request changes |
| `Downloader.Host.DownloadGribFile` | src/dwd_opendata_server_api/main.py:13-37 | the call leaves the machine and outcome exactly as `Download` says |
| `DayPlanner.CoordinateAt` | src/dwd_opendata_server_api/main.py:83-88 | the k-th call of the day has a model, run hour, field, member and level within the loop ranges |
| `DayPlanner.CoordinateAtIndex` | src/dwd_opendata_server_api/main.py:83-88 | each of the 31,200 positions has a coordinate that sits back at that position |
| `DayPlanner.IndexOfCoordinate` | src/dwd_opendata_server_api/main.py:83-88 | every coordinate of 4·8·3·5·65 occurs in the day, at exactly one position |
| `DayPlanner.BeforeIsIndexOrder` | src/dwd_opendata_server_api/main.py:83-88 | position order is lexicographic order on (model, run hour, field, member, level) |
| `DayPlanner.PlanOrderIsLexicographic` | src/dwd_opendata_server_api/main.py:83-88 | call k1 comes before call k2 exactly when its coordinate is lexicographically smaller: models outermost, levels innermost |
| `DayPlanner.TriplesAreContiguousBlocks` | src/dwd_opendata_server_api/main.py:83-88 | two calls share their (model, run hour, field) exactly when they fall in the same block of 325 |
| `DayPlanner.CoordinateInBlock` | src/dwd_opendata_server_api/main.py:87-88 | inside a triple's block, call r is member r / 65 at level r % 65 |
| `DayPlanner.Today` | src/dwd_opendata_server_api/main.py:78 | the date text is at least three characters, all digits |
| `DayPlanner.ArchiveName` | src/dwd_opendata_server_api/main.py:89 | the f-string `bz2_file`; no contract of its own, its properties are `ArchiveTailIsPlain`, `MemberSegment` and `SavedUnderArchiveName` |
| `DayPlanner.ArchiveOf` | src/dwd_opendata_server_api/main.py:89 | `bz2_file` for one coordinate; no contract of its own, as for `ArchiveName` |
| `DayPlanner.CallFor` | src/dwd_opendata_server_api/main.py:85-91 | the URL and folder of one call; no contract of its own, its properties are `UrlIsSeparatorJoin` and `FolderIsField` |
| `DayPlanner.DayPlan` | src/dwd_opendata_server_api/main.py:83-91 | the day's calls in loop order; no contract of its own, `PlanWholeDay` computes it and the coordinate lemmas state its order |
| `DayPlanner.PlanTriple` | src/dwd_opendata_server_api/main.py:85-90 | the member and level loops produce the 325 calls of one triple, members outer and levels inner |
| `DayPlanner.DayCalls` | src/dwd_opendata_server_api/main.py:83-91 | the calls for a given date text; no contract beyond their number, 31,200 |
| `DayPlanner.BlockEntry` | src/dwd_opendata_server_api/main.py:87-90 | the call for member r / 65 and level r % 65 of a triple is the day's call at the block start plus r |
| `DayPlanner.AppendBlock` | src/dwd_opendata_server_api/main.py:83-90 | appending the next triple's block to the calls so far keeps them a prefix of the day |
| `DayPlanner.PlanWholeDay` | src/dwd_opendata_server_api/main.py:76-91 | the loops produce exactly the day's 31,200 calls, in order |
| `DayPlanner.UrlIsSeparatorJoin` | src/dwd_opendata_server_api/main.py:90 | each URL is `run_hour + base + field + base + archive`: it starts with the run hour and holds the base URL twice |
| `DayPlanner.Pieces` | src/dwd_opendata_server_api/main.py:90 | where the separator copies sit in a three-item join |
| `DayPlanner.FolderIsField` | src/dwd_opendata_server_api/main.py:85 | every folder is just the field, `/u`, `/v` or `/w`, whatever the destination |
| `DayPlanner.DestinationIsIgnored` | src/dwd_opendata_server_api/main.py:85 | two destinations give the very same calls |
| `DayPlanner.DigitsArePlain` | src/dwd_opendata_server_api/main.py:78 | a text of digits holds no `/` and no space |
| `DayPlanner.ModelsArePlain` | src/dwd_opendata_server_api/main.py:47-48 | no model name holds `/` or a space |
| `DayPlanner.ConstantPiecesArePlain` | src/dwd_opendata_server_api/main.py:47-81 | the fixed pieces of an archive name hold no `/` and no space, and the run-hour text is digits |
| `DayPlanner.SuffixIsPlain` | src/dwd_opendata_server_api/main.py:89 | the part of the f-string after `bz2_file_begin`, built from plain pieces and digits, holds no `/` and no space |
| `DayPlanner.NameIsPlain` | src/dwd_opendata_server_api/main.py:89 | an archive name built from such pieces is `/` followed by text with no `/` and no space |
| `DayPlanner.ArchiveTailIsPlain` | src/dwd_opendata_server_api/main.py:89 | an archive name is `/` followed by text with no `/` and no space |
| `DayPlanner.SavedUnderArchiveName` | src/dwd_opendata_server_api/main.py:23-24 | for each planned call the downloader names the file after the archive without its `/`, at `field + archive` (`/u/icon-d2_germany_...`) |
| `DayPlanner.SavedUnderLastName` | src/dwd_opendata_server_api/main.py:23-24 | a URL ending in `/` and a name without `/` or space gives that name, joined to a folder not ending in `/` |
| `DayPlanner.MemberSegment` | src/dwd_opendata_server_api/main.py:89 | the member segment is one of `000` to `004` |
| `DayPlanner.DateIsUnpadded` | src/dwd_opendata_server_api/main.py:78 | 5 March 2024 is written `202435` |
| `DayPlanner.UnpaddedDatesCollide` | src/dwd_opendata_server_api/main.py:78 | 11 January and 1 November 2022 have the same date text and plan the same calls |
| `DayPlanner.Downloading` | src/dwd_opendata_server_api/main.py:91 | the step the loop body takes: `download_grib_file(url, folder)` against the server, on the machine left by the calls before; no contract of its own, its properties are `DownloadingLogsRequests` and `RunDayKeepsDirs` |
| `DayPlanner.RunDay` | src/dwd_opendata_server_api/main.py:83-91 | a non-ok status does not stop the day; an abort lies at or after the first call run and carries a raised exception |
| `DayPlanner.RunDayStep` | src/dwd_opendata_server_api/main.py:91 | one call either raises and ends the day there, or hands its machine to the next call |
| `DayPlanner.RunDayKeepsDirs` | src/dwd_opendata_server_api/main.py:83-91 | downloading a day never creates or removes a directory |
| `DayPlanner.DownloadingLogsRequests` | src/dwd_opendata_server_api/main.py:27 | each download logs its URL once exactly when its outcome says the request went out, and otherwise leaves the log alone |
| `DayPlanner.RunDayRequests` | src/dwd_opendata_server_api/main.py:83-91 | the requests a day sends are the plan's URLs in order, up to the call that ended it, that one included when it raised after sending |
| `DayPlanner.AbortIsFirstRaise` | src/dwd_opendata_server_api/main.py:83-91 | an abort names the first call that raised: the calls before it returned normally, and that call, on the machine they left, raised the recorded exception |
| `DayPlanner.DownloadWholeDay` | src/dwd_opendata_server_api/main.py:40-91 | the day leaves the machine and result that `RunDay` gives for the day's calls, each made by `download_grib_file` |
| `DayPlanner.DayUrlsHaveNoScheme` | src/dwd_opendata_server_api/main.py:27 | no URL of the day has an `http://` or `https://` scheme, since each starts with its run hour |
| `DayPlanner.DayEndsAtFirstCall` | src/dwd_opendata_server_api/main.py:20-27 | on any machine and whatever the server answers, the day aborts at call 0 with `FileNotFoundError` when `/u` is missing and with the refused URL otherwise; nothing is requested and nothing changes |
| `JsonFlattener.Comprehension` | src/dwd_opendata_server_api/main.py:127 | the dictionary's keys are exactly the keys of the records |
| `JsonFlattener.ComprehensionKeepsLastOccurrence` | src/dwd_opendata_server_api/main.py:127 | a key is in the dictionary exactly when a record has it, with the value of the last such record |
| `JsonFlattener.LastValueOfLastRecord` | src/dwd_opendata_server_api/main.py:127 | a record that no later record overrides is the last occurrence of its key |
| `JsonFlattener.LastRecordsWin` | src/dwd_opendata_server_api/main.py:127 | every record that no later record overrides keeps its value in the dictionary |
| `JsonFlattener.Flatten` | src/dwd_opendata_server_api/main.py:125-127 | an empty `messages` list is IndexError; otherwise the keys are those of `messages[0]` and a later duplicate wins |
| `JsonFlattener.NewName` | src/dwd_opendata_server_api/main.py:129-130 | the new name is four characters longer, with `_new` inserted five characters before the end (or in front of a shorter name) and the rest unchanged |
| `JsonFlattener.NewNameRoundTrip` | src/dwd_opendata_server_api/main.py:129-132 | the input name can be read back from the new name |
| `JsonFlattener.ShortNameGetsPrefix` | src/dwd_opendata_server_api/main.py:129-130 | a name shorter than five characters becomes `_new` followed by the name |
| `JsonFlattener.NewNameExample` | src/dwd_opendata_server_api/main.py:129-132 | `foo.json` becomes `foo_new.json` |
| `JsonFlattener.OutputPath` | src/dwd_opendata_server_api/main.py:122 | the output lies in the input's directory under the new name |
| `JsonFlattener.OptimizeJson` | src/dwd_opendata_server_api/main.py:114-133 | no message is IndexError before anything is written; otherwise the output sits beside the input under the new name and holds the dictionary `Flatten` gives for `messages[0]`, keys and last-wins values |

## Left out

- HTTP itself (`requests.get`, the 30-second timeout, `req.text`): the server is a function from URL to a response or to no answer within the timeout. A response lists the body chunks that arrive and whether reading fails after them. The diagnostics printed by both branches are not modelled either.
- Downloader.Download: among the URL errors `requests.get` raises before sending, only a missing or unsupported scheme is modelled; a URL with an http(s) scheme but a malformed host (InvalidURL) is treated as sent. Lower-casing for the scheme match covers ASCII letters only.
- The 8 KiB `chunk_size` of `iter_content`: the body comes in as whatever chunks the response holds. The written bytes are their concatenation whatever the chunking.
- `flush`, `os.fsync` and `os.path.abspath` on the written file: they have no content beyond the bytes appended.
- File-system errors other than a missing destination and an open that fails because the path is empty, ends in `/` or is a directory, or its parent is not one (permissions, a full disk, an interrupted write). Paths are compared as written: no normalisation of `.`, `..` or repeated slashes.
- `localtime()`: the date comes in as `year`, `month` and `day`.
- `pressure_levels`, `standard_half_heights`, `standard_full_heights` and `number_of_flight_levels`: tables and a constant that the loops never read.
- `extract_grib_data`: its body is `pass`.
- `dump_grib_data`: it runs the external `grib_dump` tool and hands its `CompletedProcess` to `json.loads`.
- `main`: hard-coded home-directory paths and live downloads.
- In `optimize_json`: opening and parsing the JSON file, and `json.dump` with indentation. The document comes in as its `messages` list of (key, value) records. A missing `messages`, `key` or `value` field (a KeyError) is not modelled. The first assignment to `file_name` (line 121) is overwritten on line 122 and has no effect.
- `Downloader.Response`: `ok` is taken as given rather than derived from the status code, because that rule lives in the `requests` library.
