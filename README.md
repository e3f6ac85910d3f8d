# covid-19-puerto-rico-downloader, modelled in Dafny

This project models the core of the downloader. It covers two jobs.

The first job fetches Socrata datasets from `healthdata.gov` and
`data.cdc.gov`. Each dataset is saved as a CSV file named after its
`rowsUpdatedAt` metadata, taken as UTC. The file is converted to Parquet and
compressed with `bzip2`. Both artifacts are then moved into the versioned
tree `{sync}/HHS/{name}/v2/{csv,parquet}/`.

The second job downloads the Puerto Rico Bioportal deaths report. It writes
the report to JSON Lines, compresses the raw JSON and writes a Parquet file.
All three names carry the ISO-8601 rendering of the run's local time.

## Structure of the model

- `Wrappers`: `Option`, `Result` and `Outcome`, with failure propagation.
- `Errors`: the errors the code can raise.
- `Paths`: paths as sequences of components. The working directory is `[]`.
- `Digits`, `Strings`: zero-padded decimals, and the string scans used by `splitext`, URLs and newline splitting.
- `CivilTime`: `datetime.utcfromtimestamp`, using integer civil-date arithmetic.
- `TimeFormat`: `strftime("%Y%m%d_%H%M")`, and `isoformat()` of an aware time.
- `AppToken`: `get_socrata_app_token`.
- `Framing`: the JSON Lines text and the concatenation of chunks.
- `FileSystem`: an abstract tree `Fs(dirs, files)`. It also holds the calls the code makes on it:
  - `open` for writing;
  - `pathlib.Path.mkdir`;
  - `bzip2 -f`;
  - `shutil.move`.
- `Writers`: the chunk loops of `download_url` and `Asset.get_csv`, and `json2jsonl`. These are methods with loops.
- `HhsNaming`, `HhsPipeline`: the URL, CSV and Parquet names, `Asset.get_csv`, and the dataset loop of `download_datasets`.
- `BioportalNaming`, `BioportalPipeline`: `make_filename`, `compress_file`, `download_url` and `deaths_download`.

### How the model is built

- The filesystem is a value. A step-by-step operation is a method that takes
  the state and returns the new one. Each such method carries an `Outcome`
  that says whether Python would have raised.
- The network is replaced by inputs:
  - a `Server` record for the Socrata metadata and response bodies;
  - a function from URL to chunks for `requests.get`.
- The JSON parser and `json.dumps` are replaced by the parameters `elements` and `serialize`.
- The clock and the time zone are inputs: the local fields and the UTC offset of `now`.

## Model

| member | source | states |
|---|---|---|
| AppToken.GetSocrataAppToken | src/covid_19_puerto_rico_downloader/hhs.py:37-51 | A truthy command-line token is returned as is. Otherwise, a truthy variable name gives that variable's value when it is set, and an error naming it when it is not. The result is "no token" exactly when both options are falsy. |
| AppToken.CommandLineTokenWins | src/covid_19_puerto_rico_downloader/hhs.py:38-40 | A non-empty command-line token is the result whatever the other option and the environment hold. |
| AppToken.GetSocrataAppTokenAsWritten | src/covid_19_puerto_rico_downloader/hhs.py:44-48 | As written, every failure is `NameError` for `e`, because the handler `except e:` names an unbound variable. |
| AppToken.AsWrittenDiffersOnlyInError | src/covid_19_puerto_rico_downloader/hhs.py:41-48 | The as-written and intended versions succeed on the same inputs with the same token. They differ only in the error raised for an unset variable. |
| AppToken.UnsetVariableRaisesNameError | src/covid_19_puerto_rico_downloader/hhs.py:46-48 | The concrete input: `--socrata-app-token-env-var SOCRATA_APP_TOKEN` with an empty environment gives `NameError` as written, and the lookup error as intended. |
| CivilTime.UtcFromTimestamp | src/covid_19_puerto_rico_downloader/hhs.py:134 | Succeeds exactly for timestamps in years 1-9999. The result is a valid date and time with zero microseconds, and it counts back to the same Unix second. Otherwise the error names the timestamp. |
| CivilTime.CivilFromDays | src/covid_19_puerto_rico_downloader/hhs.py:134 | Every day number maps to a valid proleptic Gregorian date that counts back to that day number. |
| CivilTime.CivilYearRange | src/covid_19_puerto_rico_downloader/hhs.py:134 | The year is in 1..9999 exactly when the day number is in the range `datetime` supports. |
| CivilTime.DayRange | src/covid_19_puerto_rico_downloader/hhs.py:134 | The day of a timestamp (floor division) is in range exactly when the timestamp is, and day and second-of-day recompose the timestamp. |
| CivilTime.TimeOfDay | src/covid_19_puerto_rico_downloader/hhs.py:134 | Second-of-day splits into hour < 24, minute < 60 and second, which recompose it. |
| CivilTime.EraDateValid | src/covid_19_puerto_rico_downloader/hhs.py:134 | Each day of a 400-year era maps to a valid date. |
| CivilTime.EraDateCounts | src/covid_19_puerto_rico_downloader/hhs.py:134 | The date of a day of an era counts back to that day. |
| CivilTime.YearOfEraBounds | src/covid_19_puerto_rico_downloader/hhs.py:134 | The year of an era is in 0..399. Its day-of-year is in 0..365, and 365 happens only in a leap year. |
| CivilTime.MonthDayValid | src/covid_19_puerto_rico_downloader/hhs.py:134 | A day of a March-based year maps to a valid month and day. |
| CivilTime.CivilCount | src/covid_19_puerto_rico_downloader/hhs.py:134 | The day number of a date, written in terms of its era, year of era and March-based month. |
| CivilTime.LeapShift | src/covid_19_puerto_rico_downloader/hhs.py:134 | Gregorian leap years repeat every 400 years. |
| Digits.ValuePadded | src/covid_19_puerto_rico_downloader/hhs.py:140 | A zero-padded field reads back as the number it renders. |
| Digits.ValueDecimal | src/covid_19_puerto_rico_downloader/hhs.py:140 | The unpadded `%Y` rendering reads back as the year. |
| Digits.DecimalIsPadded | src/covid_19_puerto_rico_downloader/hhs.py:140 | For a number of exactly w digits, the unpadded and the w-wide renderings agree. |
| Digits.PaddedInjective | src/covid_19_puerto_rico_downloader/hhs.py:140 | Different numbers have different padded renderings of the same width. |
| TimeFormat.Stamp | src/covid_19_puerto_rico_downloader/hhs.py:140 | The definition of `%Y%m%d_%H%M`: the year unpadded as glibc does, the other fields two digits each, one `_`. Its properties are in the next two rows. |
| TimeFormat.StampShape | src/covid_19_puerto_rico_downloader/hhs.py:140 | The `%Y%m%d_%H%M` stamp is digits, one `_` and four digits, so it has no colon. It is 13 characters exactly when the year has four digits. |
| TimeFormat.StampInjective | src/covid_19_puerto_rico_downloader/hhs.py:140 | For four-digit years, two stamps are equal exactly when year, month, day, hour and minute agree. Seconds are lost. |
| TimeFormat.IsoFormat | src/covid_19_puerto_rico_downloader/bioportal.py:53 | The definition of `isoformat()`: date, `T`, time to the second, microseconds only when non-zero, then the offset suffix. `IsoFormatLayout` states its layout. |
| TimeFormat.OffsetSuffix | src/covid_19_puerto_rico_downloader/bioportal.py:53 | The definition of the offset suffix: sign, hours and minutes, and seconds only when non-zero. `OffsetLayout` states its layout. |
| TimeFormat.IsoSecondsLayout | src/covid_19_puerto_rico_downloader/bioportal.py:53 | The first 19 characters of `isoformat()` are `YYYY-MM-DDTHH:MM:SS` with the fixed separators, and each field reads back as the local time's field. |
| TimeFormat.IsoFormatLayout | src/covid_19_puerto_rico_downloader/bioportal.py:53 | `isoformat()` of an aware time is at least 25 characters. It has the same separators and fields as above and contains `:`. |
| TimeFormat.OffsetLayout | src/covid_19_puerto_rico_downloader/bioportal.py:53 | The UTC offset renders as `±HH:MM`, or `±HH:MM:SS` when there are seconds. The sign matches the offset, and the fields read back as its magnitude. |
| TimeFormat.OffsetClockLayout | src/covid_19_puerto_rico_downloader/bioportal.py:53 | Offset clock text is `HH:MM`, with `:SS` only for non-zero seconds, and the fields read back. |
| TimeFormat.PuertoRicoOffset | src/covid_19_puerto_rico_downloader/bioportal.py:34 | The America/Puerto_Rico offset of minus four hours renders as `-04:00`. |
| Strings.TakeUntil | src/covid_19_puerto_rico_downloader/hhs.py:135 | The longest separator-free prefix: a prefix without the separator, followed by the separator or the end. |
| Strings.RFind | src/covid_19_puerto_rico_downloader/hhs.py:94 | The last index of a character, or -1 when it is absent. |
| Strings.Count | src/covid_19_puerto_rico_downloader/bioportal.py:70-71 | The number of occurrences of a character: zero exactly when it is absent. |
| Strings.CountAppend | src/covid_19_puerto_rico_downloader/bioportal.py:70-71 | Occurrences add up over concatenation. |
| Strings.SplitAt | src/covid_19_puerto_rico_downloader/bioportal.py:70-71 | Splitting breaks off a separator-free first piece at the first separator. |
| HhsNaming.DownloadUrl | src/covid_19_puerto_rico_downloader/hhs.py:135 | The definition of the CSV export URL. The next two rows read the domain and the dataset id back from it. |
| HhsNaming.UrlHostOfDownloadUrl | src/covid_19_puerto_rico_downloader/hhs.py:135 | The CSV export URL addresses the client's domain. |
| HhsNaming.ViewIdOfDownloadUrl | src/covid_19_puerto_rico_downloader/hhs.py:135 | The CSV export URL names the dataset's view id on that domain. |
| HhsNaming.CsvFileName | src/covid_19_puerto_rico_downloader/hhs.py:134-140 | A file name exists exactly when `rowsUpdatedAt` is in range. Otherwise the error is the out-of-range timestamp, raised before any request. |
| HhsNaming.CsvFileNameShape | src/covid_19_puerto_rico_downloader/hhs.py:134-140 | The name is `name_<stamp>.csv`. A colon-free dataset name gives a colon-free file name. With a four-digit year, stripping the 18-character suffix gives back the dataset name. |
| HhsNaming.SuffixedShape | src/covid_19_puerto_rico_downloader/hhs.py:140 | `name_<s>.csv` is colon-free when both parts are. With a 13-character stamp it ends in an 18-character suffix after `name`. |
| HhsNaming.MinuteFields | src/covid_19_puerto_rico_downloader/hhs.py:134 | The UTC day, hour and minute of a timestamp depend only on the minute it falls in. |
| HhsNaming.CsvFileNameCollision | src/covid_19_puerto_rico_downloader/hhs.py:134-140 | For four-digit years, two `rowsUpdatedAt` values give the same file name exactly when they fall in the same UTC minute. |
| HhsNaming.SplitExt | src/covid_19_puerto_rico_downloader/hhs.py:94 | `os.path.splitext`: root and extension concatenate to the path. The extension is empty, or a dot followed by no dot and no slash. |
| HhsNaming.SplitExtAppended | src/covid_19_puerto_rico_downloader/hhs.py:94 | `splitext` undoes appending a dot-led, dot-free extension to a root that does not end in `.` or `/`. |
| HhsNaming.ParquetFileName | src/covid_19_puerto_rico_downloader/hhs.py:94-95 | The definition: the `splitext` root of the CSV name, then `.parquet`. `ParquetOfCsv` states the resulting name. |
| HhsNaming.ParquetOfCsv | src/covid_19_puerto_rico_downloader/hhs.py:94-95 | `splitext` of the CSV name is `(name_<stamp>, ".csv")`, so the Parquet file is `name_<stamp>.parquet`. |
| Framing.ConcatAppend | src/covid_19_puerto_rico_downloader/hhs.py:141-143 | Joining two runs of chunks equals joining each run and concatenating. |
| Framing.ConcatSnoc | src/covid_19_puerto_rico_downloader/hhs.py:142-143 | One more chunk extends the joined bytes by that chunk. |
| Framing.JsonlSnoc | src/covid_19_puerto_rico_downloader/bioportal.py:67-71 | One more record adds its serialised line and a newline at the end of the text. |
| Framing.JsonlCons | src/covid_19_puerto_rico_downloader/bioportal.py:67-71 | The first record's line comes first in the text. |
| Framing.JsonlNewlineCount | src/covid_19_puerto_rico_downloader/bioportal.py:70-71 | When the serialiser emits no raw newline, the text has exactly one newline per record. |
| Framing.SplitJsonl | src/covid_19_puerto_rico_downloader/bioportal.py:70-71 | When the serialiser emits no raw newline, splitting the text on newlines gives the serialised records in order, then an empty tail. |
| FileSystem.AncestorsExist | src/covid_19_puerto_rico_downloader/hhs.py:105-116 | In a tree, every directory above an existing directory exists. |
| FileSystem.ResolveParent | src/covid_19_puerto_rico_downloader/hhs.py:141 | A path's directory is reachable exactly when its parent is a directory and no file stands on the way. |
| FileSystem.OsMkdir | src/covid_19_puerto_rico_downloader/hhs.py:106 | A single `mkdir` adds exactly the path when its parent is reachable and the name is free. An existing name gives `FileExistsError`, and a failure changes nothing. |
| FileSystem.Mkdir | src/covid_19_puerto_rico_downloader/hhs.py:106-116 | `Path.mkdir(parents, exist_ok)` keeps a tree and its files. It adds only the path and directories above it, and on success the path is a directory. |
| FileSystem.MkdirAll | src/covid_19_puerto_rico_downloader/hhs.py:112 | With `parents=True, exist_ok=True` and no file on the way, the call succeeds and adds exactly the missing prefixes of the path. |
| FileSystem.MkdirNeedsParent | src/covid_19_puerto_rico_downloader/hhs.py:106-108 | Without `parents`, success means the parent was already a directory. |
| FileSystem.MkdirExisting | src/covid_19_puerto_rico_downloader/hhs.py:106-116 | On an existing directory, `exist_ok` makes `mkdir` succeed without change. Without it, or on an existing file, `mkdir` raises `FileExistsError` and changes nothing. |
| FileSystem.MkdirWithin | src/covid_19_puerto_rico_downloader/hhs.py:106-116 | Directories created by `mkdir` are all prefixes of its path. |
| FileSystem.MkdirIdempotent | src/covid_19_puerto_rico_downloader/hhs.py:105-116 | Repeating a successful `mkdir(exist_ok=True)` changes nothing and succeeds, whatever `parents` says. |
| FileSystem.Compressed | src/covid_19_puerto_rico_downloader/hhs.py:104 | `bzip2 f` writes `f.bz2` in the same directory, a different path from `f`. |
| FileSystem.Compresses | src/covid_19_puerto_rico_downloader/hhs.py:104 | When `bzip2 -f` replaces a file: it is a file, its name has no `.bz2`, `.bz`, `.tbz2` or `.tbz` suffix, and its output name is not a directory. |
| FileSystem.Bzip2 | src/covid_19_puerto_rico_downloader/hhs.py:104 | When `bzip2 -f` is able to, it removes `f` and adds `f.bz2`, holding the compression of `f`, and leaves every other path as it was. Otherwise it changes nothing, since its exit status is unchecked. Directories are untouched. |
| FileSystem.Bzip2Adds | src/covid_19_puerto_rico_downloader/bioportal.py:75 | `bzip2` adds no file besides its output. |
| FileSystem.WriteFile | src/covid_19_puerto_rico_downloader/hhs.py:141 | `open(p, 'wb')` and its writes succeed exactly when the directory is reachable and `p` is not a directory. Success leaves `p` holding the content; failure changes nothing. |
| FileSystem.AppendBytes | src/covid_19_puerto_rico_downloader/hhs.py:143 | `fd.write` extends an open binary file by the chunk. |
| FileSystem.AppendText | src/covid_19_puerto_rico_downloader/bioportal.py:70-71 | `output.write` extends an open text file by the text. |
| FileSystem.ReadFile | src/covid_19_puerto_rico_downloader/bioportal.py:64 | Opening for reading succeeds exactly on a file, with its content. |
| FileSystem.Rename | src/covid_19_puerto_rico_downloader/hhs.py:117-118 | The rename that `shutil.move` performs succeeds exactly when the source is a file, the destination's directory is reachable and the destination is not a directory. It moves the content and removes the source. |
| FileSystem.MoveTarget | src/covid_19_puerto_rico_downloader/hhs.py:117-118 | Where `shutil.move` puts a file: inside the destination under its own name when the destination is a directory, else at the destination. |
| FileSystem.Move | src/covid_19_puerto_rico_downloader/hhs.py:117-118 | `shutil.move` of a file removes the source and adds it at the target, which is inside the destination when the destination is a directory. An existing entry at that inner target is an error, and any failure changes nothing. |
| FileSystem.MoveKeeps | src/covid_19_puerto_rico_downloader/hhs.py:117-118 | A move keeps the directories and every file other than its source. |
| FileSystem.MoveInto | src/covid_19_puerto_rico_downloader/hhs.py:117-118 | Moving a file to a free name in an existing directory succeeds and places it there. |
| Writers.WriteChunks | src/covid_19_puerto_rico_downloader/hhs.py:141-143 | The chunk loop succeeds exactly when the file can be created. The file then holds the chunks joined in order and nothing else changes. A failed open changes nothing. |
| Writers.Json2Jsonl | src/covid_19_puerto_rico_downloader/bioportal.py:62-71 | Succeeds exactly when the input file exists and the output can be created. The output then holds `serialize(r) + "\n"` for each element, in input order. Records are unchanged: `downloadedAt` is rendered and never used. When input and output are the same name, the truncated file is what gets read. |
| Writers.SourceAfterOpen | src/covid_19_puerto_rico_downloader/bioportal.py:64-66 | What the parser reads once the output is open: the input file, or an empty file when input and output have the same name (opening for writing truncates it). |
| HhsPipeline.GetCsv | src/covid_19_puerto_rico_downloader/hhs.py:132-144 | An out-of-range `rowsUpdatedAt` fails before the URL is requested. Otherwise the CSV export URL is requested, and on success the returned name's file holds the body's chunks in order. |
| HhsPipeline.MkdirChild | src/covid_19_puerto_rico_downloader/hhs.py:106-116 | `mkdir(exist_ok=True)` below an existing directory adds exactly that path unless a file has its name. |
| HhsPipeline.DatasetMkdirs | src/covid_19_puerto_rico_downloader/hhs.py:111-116 | Below an existing `HHS` directory, with no file on the way, the `v2`, `csv` and `parquet` calls succeed and add exactly their directories. |
| HhsPipeline.SyncMkdirs | src/covid_19_puerto_rico_downloader/hhs.py:105-108 | The sync directory and `HHS` are created below an existing parent. |
| HhsPipeline.PlacementPrefixes | src/covid_19_puerto_rico_downloader/hhs.py:105-116 | Every directory the five `mkdir` calls can create belongs to the dataset's placement directories. |
| HhsPipeline.DirsPlaced | src/covid_19_puerto_rico_downloader/hhs.py:105-116 | Once `csv` and `parquet` exist and only placement directories were added, exactly the placement directories were added. |
| HhsPipeline.PlacementExists | src/covid_19_puerto_rico_downloader/hhs.py:105-116 | On a tree that already holds the placement directories, nothing blocks the calls and they have nothing to add. |
| HhsPipeline.MakeDatasetDirs | src/covid_19_puerto_rico_downloader/hhs.py:105-116 | The five `mkdir` calls change no file and add only placement directories. On a tree they succeed exactly when the sync directory's parent exists and no file blocks the `csv` or `parquet` path, and then add exactly the placement directories. Repeated, they succeed and change nothing. |
| HhsPipeline.ArtifactNames | src/covid_19_puerto_rico_downloader/hhs.py:94-104 | The CSV file, its `.bz2` and the Parquet file have pairwise different names, and `bzip2` accepts the CSV name. |
| HhsPipeline.TargetUnmoved | src/covid_19_puerto_rico_downloader/hhs.py:105-118 | Creating the placement directories does not change where `shutil.move` puts an artifact. |
| HhsPipeline.ConvertAndCompress | src/covid_19_puerto_rico_downloader/hhs.py:93-104 | On a tree, conversion succeeds exactly when the CSV file exists and no directory has the Parquet name. It then writes the Parquet file of the CSV content and compresses the CSV file. It never adds a file other than those two outputs, and failure changes nothing. |
| HhsPipeline.MovesResult | src/covid_19_puerto_rico_downloader/hhs.py:117-118 | Two successful moves leave both sources removed and both contents at their targets. |
| HhsPipeline.MovesSucceed | src/covid_19_puerto_rico_downloader/hhs.py:117-118 | Moving two different files into existing directories with free names succeeds both times. |
| HhsPipeline.MoveArtifacts | src/covid_19_puerto_rico_downloader/hhs.py:117-118 | The two moves keep every directory and every file outside the working directory. On success, the compressed CSV is under `csv` and the Parquet file under `parquet`. A failure leaves the state as the first move left it: unchanged if that move failed, moved if the second one did. They succeed whenever both directories exist and the destination names are free. |
| HhsPipeline.PlaceArtifacts | src/covid_19_puerto_rico_downloader/hhs.py:105-118 | Directory creation followed by the moves. On success the state is the tree plus the placement directories, and the two artifacts are moved. On a tree, a failing `mkdir` leaves every file as it was and only some placement directories added. A failing move leaves all placement directories and what the first move did. When nothing blocks the directories or the destinations, they succeed. |
| HhsPipeline.NoFileOnAfterCwdChanges | src/covid_19_puerto_rico_downloader/hhs.py:91-104 | Files written in the working directory under other names do not block the placement path. |
| HhsPipeline.ConvertedFiles | src/covid_19_puerto_rico_downloader/hhs.py:91-104 | After download, conversion and compression, the tree keeps its directories and holds the `.bz2` and the Parquet file. |
| HhsPipeline.ConvertedOnly | src/covid_19_puerto_rico_downloader/hhs.py:91-104 | Those steps add no file besides the CSV file, its `.bz2` and the Parquet file. |
| HhsPipeline.CompressesInCwd | src/covid_19_puerto_rico_downloader/hhs.py:104 | `bzip2` of the working-directory CSV file writes `csv.bz2` next to it. |
| HhsPipeline.WrittenInCwd | src/covid_19_puerto_rico_downloader/hhs.py:91-101 | Writing the CSV and Parquet files in the working directory keeps a tree. |
| HhsPipeline.ReadyToPlace | src/covid_19_puerto_rico_downloader/hhs.py:91-118 | On a ready tree, conversion leaves nothing for the placement steps to fail on. |
| HhsPipeline.PlacedAfterConvert | src/covid_19_puerto_rico_downloader/hhs.py:91-118 | Placing the converted artifacts yields the placed state of the dataset. |
| HhsPipeline.ProcessDataset | src/covid_19_puerto_rico_downloader/hhs.py:89-118 | One loop iteration. The URL is requested exactly when the timestamp is in range. Success implies the timestamp was in range and leaves exactly the placed state: the three working files gone, `csv/<name>.csv.bz2` and `parquet/<name>.parquet` holding the compressed data and its Parquet form, and the placement directories present. On a ready tree it succeeds. On a tree, the first step to fail decides the state left behind. If there is no name or the CSV cannot be created, the tree is unchanged. If the Parquet name is a directory, the CSV file is written. If a `mkdir` fails, the converted state remains with some placement directories. If a move fails, the converted state remains with all placement directories and the first move's effect. |
| HhsPipeline.PlacedDelivers | src/covid_19_puerto_rico_downloader/hhs.py:104-118 | The placed state lands both artifacts, removes the three from the working directory, and removes nothing outside it. |
| HhsPipeline.StepDelivers | src/covid_19_puerto_rico_downloader/hhs.py:89-118 | A successful step delivers its dataset and adds nothing to the working directory. |
| HhsPipeline.DeliverDataset | src/covid_19_puerto_rico_downloader/hhs.py:89-118 | The loop body as the loop uses it: success delivers the dataset and adds no working-directory file, and the state only grows outside the working directory. |
| HhsPipeline.ArtifactsStable | src/covid_19_puerto_rico_downloader/hhs.py:89-118 | Artifacts placed by an earlier iteration stay placed through later ones. |
| HhsPipeline.DeliveredStable | src/covid_19_puerto_rico_downloader/hhs.py:89-118 | A delivered dataset stays delivered through later iterations. |
| HhsPipeline.DeliveredExtend | src/covid_19_puerto_rico_downloader/hhs.py:89-118 | After iteration i, datasets 0..i are all delivered. |
| HhsPipeline.LandedStable | src/covid_19_puerto_rico_downloader/hhs.py:89-118 | The artifacts of a delivered dataset stay in their `csv` and `parquet` directories through any later steps, including failed ones. |
| HhsPipeline.StopsAt | src/covid_19_puerto_rico_downloader/hhs.py:89-118 | A step that fails at dataset i, after datasets 0..i-1 were delivered, leaves a run stopped at i: the requests of datasets 0..i-1, then that of i if it was made, with the earlier artifacts in place. |
| HhsPipeline.GrowsTrans | src/covid_19_puerto_rico_downloader/hhs.py:89-118 | Iterations compose: what survives two steps survives both. |
| HhsPipeline.Urls | src/covid_19_puerto_rico_downloader/hhs.py:135 | One export URL per dataset, in list order. |
| HhsPipeline.UrlsPrefix | src/covid_19_puerto_rico_downloader/hhs.py:89-91 | The URLs of the first i+1 datasets extend those of the first i, and are a prefix of all of them. |
| HhsPipeline.Placed | src/covid_19_puerto_rico_downloader/hhs.py:104-118 | The state one successful dataset step defines: the CSV, its `.bz2` and the Parquet file gone from the working directory, the compressed CSV under `csv` and the Parquet file under `parquet` (inside a directory of that name if one is in the way), and the placement directories added. |
| HhsPipeline.HhsDir | src/covid_19_puerto_rico_downloader/hhs.py:107 | The `HHS` directory inside the sync directory. |
| HhsPipeline.DatasetDir | src/covid_19_puerto_rico_downloader/hhs.py:111 | The dataset's versioned directory `HHS/<name>/v2` inside the sync directory. |
| HhsPipeline.CsvDir | src/covid_19_puerto_rico_downloader/hhs.py:113 | The `csv` directory inside the dataset's versioned directory. |
| HhsPipeline.ParquetDir | src/covid_19_puerto_rico_downloader/hhs.py:115 | The `parquet` directory inside the dataset's versioned directory. |
| HhsPipeline.Bz2Name | src/covid_19_puerto_rico_downloader/hhs.py:117 | The compressed CSV file's name: the CSV file's name followed by `.bz2`, as `bzip2` writes it. `ArtifactNames` and `CompressesInCwd` state its properties. |
| HhsPipeline.DownloadDatasets | src/covid_19_puerto_rico_downloader/hhs.py:87-120 | The token is resolved first, and a token error touches nothing and requests nothing. The datasets are then processed in order, and the first error ends the run. The requested URLs are always a prefix of the datasets' URLs, and the tree grows. A completed run requested every URL in order and delivered every dataset. A run that fails after the token stopped at some dataset k. It requested the URLs of datasets 0..k-1, plus that of k when k's timestamp is in range. On a tree, the compressed CSV and Parquet files of datasets 0..k-1 are in their directories. The as-written token lookup fails on exactly the inputs where this one fails, and then too nothing is touched or requested. |
| BioportalNaming.MakeFilename | src/covid_19_puerto_rico_downloader/bioportal.py:52-53 | The definition: base name, `_`, `isoformat()` of the aware time, `.` and the extension. Its properties are in the next two rows. |
| BioportalNaming.DeathsName | src/covid_19_puerto_rico_downloader/bioportal.py:39-41 | The run's names: `make_filename` with basename `deaths`. `DeathsNamesDistinct` states that the three are different. |
| BioportalNaming.SameRunNames | src/covid_19_puerto_rico_downloader/bioportal.py:39-53 | `make_filename` gives `basename_<isoformat>.` followed by the extension, so two names of one run are equal exactly when their extensions are. |
| BioportalNaming.NameHasColon | src/covid_19_puerto_rico_downloader/bioportal.py:52-53 | Every Bioportal file name contains `:`. |
| BioportalNaming.DeathsNamesDistinct | src/covid_19_puerto_rico_downloader/bioportal.py:39-41 | The JSON, JSON Lines and Parquet names of one run are pairwise different. |
| BioportalNaming.CompressedName | src/covid_19_puerto_rico_downloader/bioportal.py:76 | The returned name carries a suffix that `bzip2` refuses to compress again. |
| BioportalNaming.RecompressUnchanged | src/covid_19_puerto_rico_downloader/bioportal.py:73-76 | A second `compress_file` on the returned name leaves every tree unchanged. |
| BioportalNaming.CompressedNameIsOutput | src/covid_19_puerto_rico_downloader/bioportal.py:75-76 | The returned name is where `bzip2` put its output. |
| BioportalNaming.CompressedJsonDistinct | src/covid_19_puerto_rico_downloader/bioportal.py:39-45 | The compressed JSON is the run name with extension `json.bz2`, and it differs from the JSON Lines and Parquet names. |
| BioportalPipeline.DownloadUrl | src/covid_19_puerto_rico_downloader/bioportal.py:55-60 | Succeeds exactly when the file can be created. The file then holds the response chunks in order; failure changes nothing. |
| BioportalPipeline.DEATHS_ENDPOINT | src/covid_19_puerto_rico_downloader/bioportal.py:18-19 | The deaths summary endpoint: the Bioportal reports URL followed by `/deaths/summary`. |
| BioportalPipeline.Downloaded | src/covid_19_puerto_rico_downloader/bioportal.py:43 | The state after `download_url`: the raw JSON file holds the response. The failure clauses of `FetchAndTranscode` and `DeathsSteps` name it. |
| BioportalPipeline.Transcoded | src/covid_19_puerto_rico_downloader/bioportal.py:43-44 | The state after `json2jsonl` as well: the JSON Lines file holds the text of the records. The failure clause of `DeathsSteps` names it. |
| BioportalPipeline.CompressFile | src/covid_19_puerto_rico_downloader/bioportal.py:73-76 | Returns `file.bz2`. When `bzip2` is able to, the file is replaced by its compression under that name; otherwise nothing changes. |
| BioportalPipeline.DeathsFiles | src/covid_19_puerto_rico_downloader/bioportal.py:44-50 | Compression replaces the raw JSON and touches neither the JSON Lines file nor the Parquet file. |
| BioportalPipeline.JsonNotCompressed | src/covid_19_puerto_rico_downloader/bioportal.py:39-45 | The raw JSON name has no compressed suffix, so `bzip2` accepts it. |
| BioportalPipeline.DeathsNamesSeparate | src/covid_19_puerto_rico_downloader/bioportal.py:39-45 | The run's names do not interfere with one another. |
| BioportalPipeline.CompressKeepsJsonl | src/covid_19_puerto_rico_downloader/bioportal.py:45-46 | Compressing the raw file leaves the JSON Lines file as it was. |
| BioportalPipeline.CompressAndConvert | src/covid_19_puerto_rico_downloader/bioportal.py:45-50 | Compression first. Then success exactly when the JSON Lines file exists and the Parquet file can be created; the Parquet file is then written from the JSON Lines content after compression. A failure leaves the compressed tree, with the JSON Lines file still in place. |
| BioportalPipeline.FetchAndTranscode | src/covid_19_puerto_rico_downloader/bioportal.py:43-44 | On a tree, download then transcode succeed exactly when neither name is a directory. The JSON Lines file is made from the raw download. A failed download changes nothing; a failed transcode leaves the raw download. |
| BioportalPipeline.DeathsSteps | src/covid_19_puerto_rico_downloader/bioportal.py:43-50 | The four steps in order. On a tree they succeed exactly when no name is a directory. The result is: download, transcode from the raw file, compress the raw file, then Parquet from the uncompressed JSON Lines text. A failure leaves what the earlier steps made: nothing, the raw download, or the compressed raw file with the JSON Lines file. On a tree, which of the three is decided by the first name that is a directory. |
| BioportalPipeline.DeathsDownload | src/covid_19_puerto_rico_downloader/bioportal.py:38-50 | The steps on the deaths endpoint and the `make_filename` names. On success the raw JSON is gone, `json.bz2` holds its compression, and the JSON Lines file holds the records. The Parquet file is made from those lines. On a tree, a failure leaves nothing, the raw download, or the compressed raw file with the JSON Lines file, decided by which name is a directory. |

## Left out

- HTTP and the Socrata client are not modelled (`requests.get`, `Socrata(...)` with its token and 60-second timeout, `client.session.get`, `get_metadata`). Metadata and response chunks are inputs (`Server`, `web`), and no HTTP status is checked, as in the code. The token's only effect is on the client, so `DownloadDatasets` only resolves it.
- `argparse`, `logging` and the entry points `hhs_download`, `healthdata_download`, `cdc_download` and `bioportal_download` are command-line glue and are not modelled. `datetime.now(tz=timezone('America/Puerto_Rico'))` is a clock and time-zone lookup. The aware `now` is an input, as its local fields and UTC offset.
- The static dataset lists and the unused Bioportal endpoints (`hhs.py:56-83`, `bioportal.py:20-21`) are configuration data, and they are parameters here.
- `csv2parquet`, `pyarrow.json.read_json` and `parquet.write_table` are foreign libraries. The Parquet file's content is `ParquetOf(source)`, and codecs, row groups and schema inference are not modelled. Their failures on malformed content are not modelled either: only missing or unreachable files fail.
- The bzip2 algorithm is not modelled: its output is `Bzip2Of(original)`. A run of `bzip2` the model does not consider possible (a file already compressed, an output name taken by a directory) changes nothing, and its exit status is unchecked, as in the code.
- FileSystem.Bzip2: an output name taken by an EMPTY directory is treated as a refusal that changes nothing. `bzip2 -f` in fact calls `remove()` on an existing output, which deletes an empty directory, and then writes the compressed file in its place and removes the input. The model keeps `bzip2` from ever changing directories.
- `json_stream` parsing and `json.dumps` are not modelled. They are the parameters `elements` (the top-level elements of a document) and `serialize`, so NaN handling and the `item` wrapper shape are not modelled.
- Writers.Json2Jsonl, BioportalPipeline.FetchAndTranscode, BioportalPipeline.DeathsSteps and BioportalPipeline.DeathsDownload: `elements` is total, so a malformed document does not fail. In the code, `json_stream` raises part-way through and leaves a truncated JSON Lines file. That is possible here, because no HTTP status is checked. In these contracts, "succeeds exactly when" covers only the filesystem conditions.
- HhsPipeline.DownloadDatasets: resolves the token with the corrected lookup `AppToken.GetSocrataAppToken`. As written, an unset environment variable raises `NameError` rather than the lookup error (see Findings). Its contract also states the as-written lookup's failure: on those inputs the run fails and touches nothing.
- HhsPipeline.DatasetDir and HhsNaming.CsvFileName: a dataset name is assumed to hold no `/`, and it stays one path component. In the code, a `/` in the name would split the dataset directory into more levels and put the CSV file in a subdirectory of the working directory. The static dataset lists (`hhs.py:56-83`) hold no such name.
- Filesystem paths are component sequences, with no textual normalisation (`.`, `..`, `//`, symbolic links). Permissions, disk space, crashes and races with other processes are not modelled. Moving a directory is not modelled.
- Sub-second UTC offsets in `isoformat` are not modelled, and neither are `datetime` years outside 1..9999 for `now` (the local time must be a valid `datetime`).
- The code as written does not do the following, and neither does the model:
  - a failing dataset ends `download_datasets`, with no per-dataset failure isolation;
  - records gain no `downloadedAt` field (its lines are commented out);
  - Bioportal names contain `:`;
  - Bioportal artifacts stay in the working directory, and `--s3-sync-dir` is not used;
  - the JSON Lines file is not compressed;
  - nothing is written to a temporary name.

## Findings

| source | as written | input that shows it | evidently intended | confidence | as-written member | corrected member |
|---|---|---|---|---|---|---|
| src/covid_19_puerto_rico_downloader/hhs.py:46-48 | `except e:` evaluates the unbound name `e` when `os.environ[env_var]` raises, so the error raised is `NameError` and the "not set" message is never logged | `--socrata-app-token-env-var SOCRATA_APP_TOKEN` with that variable unset (`AppToken.UnsetVariableRaisesNameError`) | `except KeyError as e:`, so that the missing variable is logged and its `KeyError` re-raised | not executed | AppToken.GetSocrataAppTokenAsWritten | AppToken.GetSocrataAppToken |
