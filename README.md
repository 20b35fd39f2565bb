# full-name-parser-csv, modelled in Dafny

`parse_full_name_csv.py` reads a CSV file, splits the free-text full name in one
column into components with the `nameparser` library's `HumanName`, and writes a
CSV file with one `parsed_<member>` column per component in front of the original
columns. This project models what happens between reading and writing:

- the configuration the `ParseFullNameCSV` object derives in `__init__` (output
  path derived from the input path with `os.path.splitext`, field name defaulting
  to `name`, with Python's `or` treating `None` and `""` alike);
- the header list handed to the writer (`output_headers_to_add`, then either the
  parsed field alone or all original headers);
- the row transformation (`process_row`, `process_rows`), including the KeyError
  for a row that lacks the field;
- the choice of input file in `main` between `-i` and the positional argument.

Files:

- `wrappers.dfy` — `Option` and `Result`.
- `posix_path.dfy` — `os.path.splitext` on POSIX paths, with a proof that it
  splits exactly where an extension lies and nowhere else.
- `full_name_csv.dfy` — the constants, the pure header and row functions, and the
  class `ParseFullNameCsv` whose constructor sets the parser and the source's four fields and whose
  methods `ProcessRow`, `ProcessRows` and `ProcessInputFile` follow the source's
  copy-then-update and loop-and-append code.
- `cli.dfy` — `main`'s input selection and its composition with the class.

`HumanName` is the parameter `NameParser(members, parse)`: `members` is its fixed,
ordered member list and `parse(s)(m)` the value `HumanName(s).as_dict()` gives
member `m`; the dictionary's keys are taken to be exactly `members`. The CSV reader
is replaced by its result (rows and headers passed in), and the writer by its
arguments (the `CsvOutput` value returned).

Details of the code a reader may not expect:

- The derived output path always ends in `.csv`: the format string replaces
  whatever extension the input had; it does not keep it.
- A parsed column overwrites an input column of the same name (for example an
  input that already has `parsed_first`); nothing prevents the collision.
- With names only, only the header list shrinks to the members plus the field;
  the transformed rows still carry every original column.
- A file named only `.csv` has no extension for `os.path.splitext`, so
  `/tmp/.csv` becomes `/tmp/.csv_parsedName.csv`.
- `-i ""` and `-f ""` count as absent, because the code tests them for truth.
  The predicate `FullNameCsv.Truthy` is that test, and Python's `x or default`
  at lines 18-19 is written out as `if Truthy(x) then x.value else default` in
  the constructor and in `Cli.Run`.

## Model

| member | source | states |
|---|---|---|
| PosixPath.RFind | full-name-parser-csv/parse_full_name_csv.py:29 | `str.rfind` of one character, as `os.path.splitext` uses it: -1 when absent, otherwise an index holding the character with none after it |
| PosixPath.SplitExt | full-name-parser-csv/parse_full_name_csv.py:29 | `os.path.splitext`: root and extension concatenate back to the path |
| PosixPath.SplitExtSound | full-name-parser-csv/parse_full_name_csv.py:29 | a non-empty extension is a '.' followed by neither '.' nor '/', after a last path component that is not all dots |
| PosixPath.SplitExtAt | full-name-parser-csv/parse_full_name_csv.py:29 | wherever a path splits at an extension, `splitext` splits there, so the split is unique |
| PosixPath.SplitExtComplete | full-name-parser-csv/parse_full_name_csv.py:29 | the extension is empty exactly when the path has no extension split |
| FullNameCsv.EndsWithCharacters | full-name-parser-csv/parse_full_name_csv.py:17 | `str.endswith` (the predicate `EndsWith`): true exactly when the suffix fits and matches the last characters position by position, and then the string is its prefix followed by the suffix |
| FullNameCsv.MakeOutputFilePath | full-name-parser-csv/parse_full_name_csv.py:26-33 | the derived path always ends in `_parsedName.csv`, and what precedes it is the `splitext` root of the input |
| FullNameCsv.OutputPathOfCsvInput | full-name-parser-csv/parse_full_name_csv.py:26-33 | for a `.csv` input whose file name has a non-dot before `.csv`, the derived path is the input with `.csv` replaced by `_parsedName.csv` |
| FullNameCsv.OutputPathExample | full-name-parser-csv/parse_full_name_csv.py:29-31 | `/tmp/data.csv` becomes `/tmp/data_parsedName.csv` |
| FullNameCsv.OutputPathOfDotCsv | full-name-parser-csv/parse_full_name_csv.py:29-31 | a `.csv` input whose file name is only dots before `.csv` gets `_parsedName.csv` after the whole path |
| FullNameCsv.DotCsvExample | full-name-parser-csv/parse_full_name_csv.py:29-31 | `/tmp/.csv` becomes `/tmp/.csv_parsedName.csv` |
| FullNameCsv.HeadersToAdd | full-name-parser-csv/parse_full_name_csv.py:11 | one added header per member, in member order, each `parsed_` plus the member |
| FullNameCsv.HeadersToAddKeys | full-name-parser-csv/parse_full_name_csv.py:11 | the added headers, as a set, are exactly the columns the parsed members occupy |
| FullNameCsv.OutputHeaders | full-name-parser-csv/parse_full_name_csv.py:40-43 | the added headers form a prefix; then exactly `[fieldname]` with names only (members + 1 headers), otherwise the original headers unchanged and not de-duplicated (members + headers) |
| FullNameCsv.ParsedFields | full-name-parser-csv/parse_full_name_csv.py:58 | the parsed dictionary has exactly the `parsed_<member>` keys, each holding the parser's value for that member |
| FullNameCsv.TransformRow | full-name-parser-csv/parse_full_name_csv.py:55-60 | KeyError exactly when the field is missing; otherwise the keys are the row's keys plus the parsed keys, every other column keeps its value and every parsed column holds the parser's component, overwriting an input column of that name |
| FullNameCsv.TransformedRowMatchesHeaders | full-name-parser-csv/parse_full_name_csv.py:39-45 | when the headers name exactly a row's columns, the transformed row has exactly the columns of the full output header list |
| FullNameCsv.NamesOnlyHeadersInRow | full-name-parser-csv/parse_full_name_csv.py:39-45 | with names only, every output header is a column of the transformed row |
| FullNameCsv.ParseFullNameCsv.constructor | full-name-parser-csv/parse_full_name_csv.py:14-20 | an output file that is None or "" becomes the derived path, a field name that is None or "" becomes `name`, the other arguments are stored unchanged |
| FullNameCsv.ParseFullNameCsv.ProcessRow | full-name-parser-csv/parse_full_name_csv.py:55-60 | copying the row and updating it with the parsed dictionary built member by member yields TransformRow, error included |
| FullNameCsv.ParseFullNameCsv.ProcessRows | full-name-parser-csv/parse_full_name_csv.py:49-53 | succeeds exactly when every row has the field; then as many rows as the input, row i being the transform of input row i; otherwise the KeyError |
| FullNameCsv.ParseFullNameCsv.ProcessInputFile | full-name-parser-csv/parse_full_name_csv.py:35-47 | hands the writer the configured output path, the transformed rows in order and the composed header list; a missing field anywhere aborts with the KeyError |
| Cli.SelectInputFile | full-name-parser-csv/parse_full_name_csv.py:83-89 | a non-empty `-i` wins and positional arguments are ignored; otherwise one positional argument is used, two or more give "too many arguments", none gives "please provide an input_file"; an error exactly when there is no `-i` and not one argument |
| Cli.Run | full-name-parser-csv/parse_full_name_csv.py:83-94 | a usage error first, then the `.csv` assertion as InvalidInput, then the output of `process_input_file` with the defaulted output path and field name |

## Left out

- Reading and writing CSV (`utils.read_csv`, `utils.write_csv`): foreign file I/O; the rows and headers are parameters and the writer's arguments are the result. Whether the writer accepts rows with columns beyond the header list is not modelled.
- `HumanName`'s name-splitting heuristic and its concrete member list: a third-party library, modelled as the parameter `NameParser`.
- The `os.path.exists` assertions at lines 16 and 28: filesystem checks. The `.csv` assertion at line 17 is the constructor's precondition, and `Cli.Run` reports its failure as `InvalidInput`.
- The Windows flavour of `os.path`: only the POSIX one, where '/' alone separates path components, is modelled; on Windows `\` separates them too, so a path such as `C:\a.b\c` would split differently.
- Logging (`log.*`, `utils.logging_setup`): side effects only.
- `OptionParser` configuration and parsing, and `sys.exit`: library plumbing; `Options` is what parsing yields. A usage error is the `Usage` value with the exact message, not an exit with status 2.
- Dictionary insertion order of a row: rows are maps, since the writer orders columns by the header list.
- Cli.Run: does not model that the rows come from reading the selected file; they are given alongside the arguments.
