# Parallel merge of ASIC output files, modelled in Dafny

`merge_outputs/new_merge_parallel.cpp` is a command-line tool for the
tab-separated text files an ASIC read-out produces. For a file-name prefix
(`Master_`, then `Slave_`) it works in five steps:

- it finds the regular files in the working directory whose names start with
  the prefix;
- it reads each one on its own task (`processFile`);
- it keeps the data lines that pass a record filter;
- it sorts all kept lines by their TIMESTAMP column;
- it writes a fixed header line followed by the sorted records to
  `merged_MASTER.txt` or `merged_SLAVE.txt`, and reports the number of
  records written.

A line is kept when all three of these hold:

- it is not the header line;
- its raw text contains `ASIC`, or its TYPE column (field 2) reads as an
  `int` above 2;
- its TIMESTAMP column (field 3) reads as a `long long` in
  [1000, 10^18].

The model has six modules:

- `Wrappers` holds `Option`.
- `Text` models `std::string::find` and the token sequence a loop of
  `std::getline(stream, token, delim)` produces. `Split` is the
  specification. `GetLine` is the character-scanning method for one call.
  Joining and splitting are proved to round-trip.
- `IntParse` models what `std::stoi` and `std::stoll` accept:
  - leading C white space is skipped;
  - one sign is taken;
  - at least one digit is required;
  - trailing text is ignored;
  - the value must fit the target type.

  It is proved against decimal rendering.
- `RecordFilter` holds the constants, `extractTimestamp` (as the function
  `Timestamp` and the method `ExtractTimestamp`), `isValidLine` (as
  `TypeAboveTwo` / `IsValidLine`) and the acceptance test `Accepted`.
  `ReadColumn` is the shared getline-over-the-line loop.
- `FileProcessor` models `processFile`. A file is either `Unreadable` or
  its text; its lines are `Split(text, '\n')`. `ProcessFile` is the read
  loop, proved equal to the filter function `AcceptedLines`, whose
  properties are proved as lemmas.
- `Merge` models `mergeFilesParallel`:
  - the directory scan over a given listing;
  - collection of the per-file results in file order;
  - an in-place sort of an `array<string>` by `ExtractTimestamp`;
  - the writer, as the text sent to the output stream;
  - the reported count.

  It also proves that the output file, read back through `processFile`,
  gives exactly the sorted records.

## Model

| member | source | states |
|---|---|---|
| Text.Split | merge_outputs/new_merge_parallel.cpp:24 | the getline token sequence of a text is empty exactly when the text is empty |
| Text.GetLine | merge_outputs/new_merge_parallel.cpp:66 | one getline call from a position takes a delimiter-free token and advances past the delimiter; the tokens still to come are exactly the remaining ones |
| Text.SplitTokensFree | merge_outputs/new_merge_parallel.cpp:24 | no token getline produces contains the delimiter |
| Text.SplitCons | merge_outputs/new_merge_parallel.cpp:24 | a delimiter-free text followed by the delimiter is read as one token, then the rest |
| Text.SplitJoin | merge_outputs/new_merge_parallel.cpp:24 | splitting delimiter-free tokens joined by the delimiter gives them back, except that a final empty token is lost |
| Text.JoinSplit | merge_outputs/new_merge_parallel.cpp:66 | joining the tokens of a text rebuilds the text, up to a final delimiter that getline consumes |
| Text.FieldOfJoin | merge_outputs/new_merge_parallel.cpp:24-33 | column k of a tab-joined record is its k-th field, and there is no column k when the record is shorter or the field is the final empty one |
| Text.FindFirst | merge_outputs/new_merge_parallel.cpp:70 | find returns the first index where the pattern occurs, and npos exactly when it occurs nowhere |
| Text.Find | merge_outputs/new_merge_parallel.cpp:70 | an index that find returns is an occurrence of the pattern (FindFirst adds that it is the first one) |
| Text.Contains | merge_outputs/new_merge_parallel.cpp:70 | `find(pat) != npos` holds exactly when the pattern occurs at some index |
| Text.HasPrefix | merge_outputs/new_merge_parallel.cpp:82 | `name.find(prefix) == 0` holds exactly when prefix is a prefix of name |
| IntParse.ParseInteger | merge_outputs/new_merge_parallel.cpp:27 | a successful stoi/stoll conversion gives a value within the target type's range; the lemmas below fix what it reads |
| IntParse.ParseRender | merge_outputs/new_merge_parallel.cpp:27 | leading white space, then a rendered integer, then non-digit text, reads back as that integer when it fits the target range and fails otherwise |
| IntParse.ParseSkipsSpaces | merge_outputs/new_merge_parallel.cpp:27 | leading white space does not change the conversion |
| IntParse.ParseSign | merge_outputs/new_merge_parallel.cpp:45 | one sign character is consumed and only a minus negates |
| IntParse.ParseWritten | merge_outputs/new_merge_parallel.cpp:27 | white space, an optional sign, a digit run with any leading zeros, then non-digit text, read as the digit run's value, negated after a minus, when it fits the target range, and fail otherwise |
| IntParse.ParseNeedsDigit | merge_outputs/new_merge_parallel.cpp:26-30 | without a digit after the white space and the optional sign, the conversion fails (the catch branch) |
| IntParse.TrailingTextIgnored | merge_outputs/new_merge_parallel.cpp:45 | "12abc" reads as 12 |
| IntParse.IntOverflowFails | merge_outputs/new_merge_parallel.cpp:45-49 | "3000000000" is out of range for stoi |
| RecordFilter.Timestamp | merge_outputs/new_merge_parallel.cpp:20-35 | the timestamp value lies in the long long range |
| RecordFilter.Accepted | merge_outputs/new_merge_parallel.cpp:67-71 | a kept line is not the header, has a field 3 that converts to its timestamp, and contains "ASIC" or has a field 2 |
| RecordFilter.ReadColumn | merge_outputs/new_merge_parallel.cpp:21-34 | the getline walk over a line stops at the wanted column and yields its token, or nothing when the line has fewer columns |
| RecordFilter.ExtractTimestamp | merge_outputs/new_merge_parallel.cpp:20-35 | extractTimestamp returns field 3 read by stoll, and -1 when there is no field 3 or it does not convert |
| RecordFilter.IsValidLine | merge_outputs/new_merge_parallel.cpp:38-54 | isValidLine is true exactly when field 2 exists, converts with stoi, and is above 2 |
| RecordFilter.TimestampOfRecord | merge_outputs/new_merge_parallel.cpp:25-27 | a record whose field 3 is a rendered integer has that timestamp, or -1 when it exceeds long long |
| RecordFilter.TimestampOfShortRecord | merge_outputs/new_merge_parallel.cpp:34 | a record with fewer than four fields (a trailing tab adds none) has timestamp -1 |
| RecordFilter.TimestampOfNonNumeric | merge_outputs/new_merge_parallel.cpp:28-30 | a record with a field 3 that, after its white space and optional sign, does not start with a digit has timestamp -1 |
| RecordFilter.TypeOfRecord | merge_outputs/new_merge_parallel.cpp:43-46 | a record whose field 2 is a rendered integer passes isValidLine exactly when that integer fits an int and is above 2 |
| RecordFilter.TypeOfNonNumeric | merge_outputs/new_merge_parallel.cpp:47-53 | a record with no field 2, or whose field 2 after its white space and optional sign does not start with a digit, fails isValidLine |
| RecordFilter.SplitHeader | merge_outputs/new_merge_parallel.cpp:17 | the header consists of the five column names ASIC, CH, TYPE, TIMESTAMP_LSB, PULSE_WIDTH_LSB |
| RecordFilter.HeaderHasNoTimestamp | merge_outputs/new_merge_parallel.cpp:17 | the header has timestamp -1 and fails isValidLine |
| RecordFilter.AcceptsTypedRecord | merge_outputs/new_merge_parallel.cpp:69-72 | a record whose field 2 holds an int above 2 and whose field 3 holds a timestamp in [1000, 10^18] is accepted, however each number is written: white space before it, an optional sign, leading zeros, and non-digit text (such as a carriage return) after it |
| RecordFilter.RejectsOutOfRange | merge_outputs/new_merge_parallel.cpp:70-71 | a record whose field 3 holds an integer outside [1000, 10^18], however it is written (white space, sign, leading zeros, trailing text), is refused, whatever its TYPE or its ASIC marker |
| RecordFilter.AsicMarkerAdmits | merge_outputs/new_merge_parallel.cpp:70 | "XASIC\tCH\tfoo\t5000\t1" fails isValidLine, yet is accepted because it contains "ASIC" |
| RecordFilter.TrailingTabIsNoField | merge_outputs/new_merge_parallel.cpp:24-34 | "a\tb\tc\t" has no field 3, so its timestamp is -1 |
| RecordFilter.TypeOverflowIsInvalid | merge_outputs/new_merge_parallel.cpp:45-49 | a TYPE of 3000000000 overflows stoi, so isValidLine is false |
| FileProcessor.ProcessFile | merge_outputs/new_merge_parallel.cpp:57-76 | processFile returns the accepted lines of the file, in file order; an unreadable file gives no lines |
| FileProcessor.KeepLine | merge_outputs/new_merge_parallel.cpp:67-72 | a line is kept exactly when it passes the acceptance test; isValidLine is only evaluated when "ASIC" is absent |
| FileProcessor.AcceptedLinesAppend | merge_outputs/new_merge_parallel.cpp:66-74 | filtering distributes over concatenation of line sequences |
| FileProcessor.AcceptedLinesMembers | merge_outputs/new_merge_parallel.cpp:66-74 | a line is kept exactly when it is one of the input lines and is accepted |
| FileProcessor.AcceptedLinesOrdered | merge_outputs/new_merge_parallel.cpp:66-74 | the kept lines are a subsequence of the input lines, so their order is kept |
| FileProcessor.AcceptedLinesCounts | merge_outputs/new_merge_parallel.cpp:66-74 | an accepted line is kept as many times as it occurs; any other line is kept zero times |
| FileProcessor.AcceptedLinesKeepsAll | merge_outputs/new_merge_parallel.cpp:66-74 | filtering lines that are all accepted returns them unchanged |
| FileProcessor.AcceptedLinesIdempotent | merge_outputs/new_merge_parallel.cpp:66-74 | filtering twice is the same as filtering once |
| FileProcessor.FileRecordsSound | merge_outputs/new_merge_parallel.cpp:67-72 | every returned line is a line of the file, has no newline and is not the header; it contains "ASIC" or has TYPE above 2; its timestamp lies in [1000, 10^18] |
| FileProcessor.HeaderNeverKept | merge_outputs/new_merge_parallel.cpp:67 | the header line is never returned, whatever the file holds |
| Merge.SelectFiles | merge_outputs/new_merge_parallel.cpp:80-85 | the scan keeps the files of the regular entries whose name starts with the prefix, in iteration order |
| Merge.SelectedFilesMembers | merge_outputs/new_merge_parallel.cpp:82 | a file is processed exactly when some regular entry with the prefix holds it |
| Merge.CollectRecords | merge_outputs/new_merge_parallel.cpp:87-98 | allLines is the processFile results of the files, one after the other, in file order |
| Merge.CollectedIsFiltered | merge_outputs/new_merge_parallel.cpp:94-98 | the collected lines are the accepted lines taken from all the lines of all the files, in file order |
| Merge.ConcatLength | merge_outputs/new_merge_parallel.cpp:94-98 | the number of collected lines is the sum of the sizes of the per-file results |
| Merge.ConcatMembers | merge_outputs/new_merge_parallel.cpp:97 | a line is in the concatenation exactly when it is in one of the parts |
| Merge.CollectedMembers | merge_outputs/new_merge_parallel.cpp:94-98 | a line is collected exactly when processFile keeps it from one of the files |
| Merge.CollectedSound | merge_outputs/new_merge_parallel.cpp:94-98 | every collected line is accepted and has no newline |
| Merge.SortByTimestamp | merge_outputs/new_merge_parallel.cpp:101-104 | after the sort the lines are in nondecreasing timestamp order and form a permutation of the lines before it |
| Merge.InsertInPlace | merge_outputs/new_merge_parallel.cpp:101-104 | one insertion pass extends the sorted prefix by one line, permutes the array and leaves every element after index i as it was |
| Merge.WriteDocument | merge_outputs/new_merge_parallel.cpp:107-111 | the stream receives the header, a newline, then each record followed by a newline |
| Merge.SplitBody | merge_outputs/new_merge_parallel.cpp:109-111 | reading the written records back with getline gives the records |
| Merge.DocumentLines | merge_outputs/new_merge_parallel.cpp:107-111 | reading the output file line by line gives the header, then every record |
| Merge.RemergeIsIdentity | merge_outputs/new_merge_parallel.cpp:57-76 | processFile applied to an output file returns exactly the records written into it |
| Merge.MergeFiles | merge_outputs/new_merge_parallel.cpp:79-116 | the written records are sorted by timestamp, are a permutation of the collected lines, and are all accepted; the output is the header followed by them; the count is their number; no matching file gives the header alone and count 0; re-reading the output gives the records back |

## Left out

- Concurrency: the `std::async` tasks of lines 87-91 are run one after the other in file order. Each task only reads its own file and returns a fresh vector, so the results do not depend on the scheduling.
- Directory iteration: `std::filesystem::directory_iterator` is replaced by a given listing of entries. Each entry has a name, a regular-file flag and its contents, in iteration order. The iteration order itself is not modelled.
- File and stream I/O:
  - an input file is its whole text, or `Unreadable` when it cannot be opened;
  - read errors after opening are not modelled;
  - the output file is the string the model returns.
- Messages: the `std::cerr` line for an unreadable file is not modelled. The `std::cout` completion line is not modelled either; the count it reports is the `count` out-parameter.
- Merge.SortByTimestamp: `__gnu_parallel::sort` (a parallel introsort/multiway-merge sort) is modelled as an in-place insertion sort with the same comparator. The contract states only what the source guarantees: order by timestamp and a permutation. Ties may come out in any order, and no stability is claimed.
- Write failures: the source never checks the output stream, so a failed write goes unreported. The model has no failure path for writing either.
- `main`: its two calls, for `Master_`/`merged_MASTER.txt` and `Slave_`/`merged_SLAVE.txt`, are instances of `Merge.MergeFiles`. The output file name is therefore not a parameter.
- Text encoding: characters are Dafny `char`s. Carriage returns stay in the lines, as getline leaves them.
- `MAX_TIMESTAMP` is the double literal `1e18` converted to `long long`. It is modelled as the exact integer 10^18, which the conversion yields.
- `std::stoi` converts with `strtol` into a `long` and then checks the `int` range. The model checks the `int` range directly, which accepts and rejects the same inputs.
- Memory exhaustion (`std::bad_alloc`) is not modelled.
