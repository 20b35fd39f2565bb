/**
 * The CSV transformation of parse_full_name_csv.py: the configuration that the
 * `ParseFullNameCSV` object derives from its arguments, the header list it writes
 * and the rows it transforms by splitting one column into name components.
 *
 * The name-splitting library (`nameparser.HumanName`) is not modelled; it is the
 * parameter `NameParser`: a fixed ordered member list and, for each full-name string,
 * the value of each member.
 */
module FullNameCsv {
  import opened Wrappers
  import PosixPath

  /** One CSV record: column name to cell value. */
  type Row = map<string, string>

  /** `output_postfix_constant`, inserted between the input's base name and ".csv". */
  const OutputPostfix := "_parsedName"
  /** The extension that `output_file_format` always ends with. */
  const OutputExtension := ".csv"
  /** Every parsed member becomes the column "parsed_" followed by the member's name. */
  const ParsedPrefix := "parsed_"
  /** `default_input_field_to_parse`. */
  const DefaultInputFieldToParse := "name"

  /**
   * Stand-in for `HumanName`: `members` is `HumanName._members` in order, and
   * `parse(s)(m)` is the value that `HumanName(s).as_dict()` gives member `m`
   * (the dictionary's keys are taken to be exactly `members`).
   */
  datatype NameParser = NameParser(members: seq<string>, parse: string -> string -> string)

  datatype Error =
    | MissingField(field: string)   // KeyError from `row[self.fieldname]`
    | InvalidInput(path: string)    // AssertionError: the input path does not end in ".csv"
    | Usage(message: string)        // `parser.error(...)` in `main`

  /** The arguments that `utils.write_csv` receives: where, which rows, which columns. */
  datatype CsvOutput = CsvOutput(path: string, rows: seq<Row>, headers: seq<string>)

  /** `s.endswith(suffix)`. */
  predicate EndsWith(s: string, suffix: string) {
    |suffix| <= |s| && s[|s| - |suffix|..] == suffix
  }

  /**
   * `s` ends with `suffix` exactly when the suffix fits and matches the last
   * characters of `s` one by one, and then `s` is a prefix followed by `suffix`.
   */
  lemma EndsWithCharacters(s: string, suffix: string)
    ensures EndsWith(s, suffix) <==>
      |suffix| <= |s| && forall i :: 0 <= i < |suffix| ==> s[|s| - |suffix| + i] == suffix[i]
    ensures EndsWith(s, suffix) ==> s == s[..|s| - |suffix|] + suffix
  {
    if |suffix| <= |s| {
      var tail := s[|s| - |suffix|..];
      assert forall i :: 0 <= i < |suffix| ==> tail[i] == s[|s| - |suffix| + i];
    }
  }

  /**
   * Python truthiness of an optional string: neither None nor "". `x or default`
   * is `if Truthy(x) then x.value else default`.
   */
  predicate Truthy(x: Option<string>) {
    x.Some? && x.value != []
  }

  /**
   * `make_output_file_path_from_input_file_path`: the input path without its
   * extension (as `os.path.splitext` finds it), then "_parsedName.csv".
   */
  function MakeOutputFilePath(inputPath: string): (r: string)
    ensures EndsWith(r, OutputPostfix + OutputExtension)
    ensures PosixPath.SplitExt(inputPath).0 == r[..|r| - |OutputPostfix + OutputExtension|]
  {
    var base := PosixPath.SplitExt(inputPath).0;
    assert (base + OutputPostfix + OutputExtension)[..|base|] == base;
    base + OutputPostfix + OutputExtension
  }

  /**
   * For a ".csv" input whose file name has something other than dots before
   * ".csv", the derived path replaces ".csv" by "_parsedName.csv".
   */
  lemma OutputPathOfCsvInput(p: string, k: nat)
    requires EndsWith(p, ".csv")
    requires k < |p| - 4 && p[k] != '.' && forall j :: k <= j < |p| - 4 ==> p[j] != '/'
    ensures MakeOutputFilePath(p) == p[..|p| - 4] + "_parsedName.csv"
  {
    var n := |p| - 4;
    var root, ext := p[..n], p[n..];
    assert ext == ".csv";
    assert root[k] != '.';
    assert forall j :: k <= j < |root| ==> root[j] != '/';
    assert forall i :: 1 <= i < |ext| ==> ext[i] != '.' && ext[i] != '/';
    PosixPath.SplitExtAt(p, n);
  }

  /** The derived path for "/tmp/data.csv" is "/tmp/data_parsedName.csv". */
  lemma OutputPathExample()
    ensures MakeOutputFilePath("/tmp/data.csv") == "/tmp/data_parsedName.csv"
  {
    OutputPathOfCsvInput("/tmp/data.csv", 5);
  }

  /**
   * A ".csv" input whose file name is only dots before ".csv" (such as ".csv")
   * has no extension for `os.path.splitext`, so the postfix goes after the
   * whole path.
   */
  lemma OutputPathOfDotCsv(dir: string, name: string)
    requires dir == [] || dir[|dir| - 1] == '/'
    requires forall i :: 0 <= i < |name| ==> name[i] == '.'
    ensures MakeOutputFilePath(dir + name + ".csv") == dir + name + ".csv" + "_parsedName.csv"
  {
    var p := dir + name + ".csv";
    var n := |dir| + |name|;
    var sep, dot := PosixPath.RFind(p, '/'), PosixPath.RFind(p, '.');
    assert p[n] == '.' && p[n + 1] == 'c' && p[n + 2] == 's' && p[n + 3] == 'v';
    assert dot == n;
    assert forall j :: |dir| <= j < n ==> p[j] == name[j - |dir|];
    assert forall j :: |dir| <= j < |p| ==> p[j] != '/';
    assert dir != [] ==> p[|dir| - 1] == dir[|dir| - 1] == '/';
    assert sep == |dir| - 1;
    var stem := p[sep + 1..dot];
    assert stem == name;
    assert PosixPath.SplitExt(p) == (p, []);
  }

  /** The derived path for "/tmp/.csv" is "/tmp/.csv_parsedName.csv". */
  lemma DotCsvExample()
    ensures MakeOutputFilePath("/tmp/.csv") == "/tmp/.csv_parsedName.csv"
  {
    var dir: string, name: string := "/tmp/", "";
    assert dir[|dir| - 1] == '/';
    assert dir + name + ".csv" == "/tmp/.csv";
    OutputPathOfDotCsv(dir, name);
    assert "/tmp/.csv" + "_parsedName.csv" == "/tmp/.csv_parsedName.csv";
  }

  /** `output_headers_to_add`: "parsed_" before each member, in member order. */
  function HeadersToAdd(members: seq<string>): (r: seq<string>)
    ensures |r| == |members|
    ensures forall i :: 0 <= i < |r| ==> r[i] == ParsedPrefix + members[i]
  {
    if members == [] then [] else [ParsedPrefix + members[0]] + HeadersToAdd(members[1..])
  }

  /** The column names that the parsed members occupy. */
  function ParsedKeys(members: seq<string>): set<string> {
    set m | m in members :: ParsedPrefix + m
  }

  /** The added headers, as a set, are exactly the parsed columns. */
  lemma HeadersToAddKeys(members: seq<string>)
    ensures (set h | h in HeadersToAdd(members)) == ParsedKeys(members)
  {
    var hs := HeadersToAdd(members);
    forall h | h in hs ensures h in ParsedKeys(members) {
      var i :| 0 <= i < |hs| && hs[i] == h;
      assert members[i] in members;
    }
    forall h | h in ParsedKeys(members) ensures h in hs {
      var m :| m in members && h == ParsedPrefix + m;
      var i :| 0 <= i < |members| && members[i] == m;
      assert hs[i] == h;
    }
  }

  /**
   * The header list `process_input_file` writes: the added headers, then either
   * just the parsed field (names only) or every original header, unchanged.
   */
  function OutputHeaders(members: seq<string>, fieldname: string, saveNamesOnly: bool, headers: seq<string>): (r: seq<string>)
    ensures |r| == |members| + (if saveNamesOnly then 1 else |headers|)
    ensures forall i :: 0 <= i < |members| ==> r[i] == ParsedPrefix + members[i]
    ensures saveNamesOnly ==> r[|members|..] == [fieldname]
    ensures !saveNamesOnly ==> r[|members|..] == headers
  {
    HeadersToAdd(members) + (if saveNamesOnly then [fieldname] else headers)
  }

  /**
   * The parsed dictionary of `process_row`: one `parsed_<member>` entry per member
   * of `ms`, holding `value(m)`, the component the parser gives member `m`.
   */
  function ParsedFields(ms: seq<string>, value: string -> string): (r: map<string, string>)
    ensures r.Keys == ParsedKeys(ms)
    ensures forall m :: m in ms ==> r[ParsedPrefix + m] == value(m)
  {
    if ms == [] then map[]
    else
      var last := ms[|ms| - 1];
      var front := ParsedFields(ms[..|ms| - 1], value);
      assert forall m :: m in ms ==> m in ms[..|ms| - 1] || m == last;
      assert forall m :: (ParsedPrefix + m)[|ParsedPrefix|..] == m;
      front[ParsedPrefix + last := value(last)]
  }

  /**
   * `process_row`: a copy of `row` in which every parsed column holds the parser's
   * component for the `fieldname` cell, replacing a column of that name if the row
   * had one; a row without `fieldname` is a KeyError.
   */
  function TransformRow(parser: NameParser, fieldname: string, row: Row): (r: Result<Row, Error>)
    ensures r.Err? <==> fieldname !in row
    ensures r.Err? ==> r.error == MissingField(fieldname)
    ensures r.Ok? ==> r.value.Keys == row.Keys + ParsedKeys(parser.members)
    ensures r.Ok? ==> forall k :: k in row && k !in ParsedKeys(parser.members) ==> r.value[k] == row[k]
    ensures r.Ok? ==> forall m :: m in parser.members ==> r.value[ParsedPrefix + m] == parser.parse(row[fieldname])(m)
  {
    if fieldname !in row then Err(MissingField(fieldname))
    else Ok(row + ParsedFields(parser.members, parser.parse(row[fieldname])))
  }

  /**
   * When the header list names exactly the row's columns, the transformed row has
   * exactly the columns of the full output header list.
   */
  lemma TransformedRowMatchesHeaders(parser: NameParser, fieldname: string, headers: seq<string>, row: Row)
    requires row.Keys == set h | h in headers
    requires fieldname in row
    ensures TransformRow(parser, fieldname, row).Ok?
    ensures TransformRow(parser, fieldname, row).value.Keys
         == set h | h in OutputHeaders(parser.members, fieldname, false, headers)
  {
    var added := HeadersToAdd(parser.members);
    var out := OutputHeaders(parser.members, fieldname, false, headers);
    assert out == added + headers;
    HeadersToAddKeys(parser.members);
    ElementsOfConcat(added, headers);
    var keys := TransformRow(parser, fieldname, row).value.Keys;
    assert keys == row.Keys + ParsedKeys(parser.members);
  }

  /** With names only, every output header is a column of the transformed row. */
  lemma NamesOnlyHeadersInRow(parser: NameParser, fieldname: string, headers: seq<string>, row: Row)
    requires fieldname in row
    ensures TransformRow(parser, fieldname, row).Ok?
    ensures (set h | h in OutputHeaders(parser.members, fieldname, true, headers))
         <= TransformRow(parser, fieldname, row).value.Keys
  {
    var added := HeadersToAdd(parser.members);
    var out := OutputHeaders(parser.members, fieldname, true, headers);
    assert out == added + [fieldname];
    HeadersToAddKeys(parser.members);
    ElementsOfConcat(added, [fieldname]);
    assert (set h | h in [fieldname]) == {fieldname};
  }

  /** The elements of a concatenation are those of its two parts. */
  lemma ElementsOfConcat(a: seq<string>, b: seq<string>)
    ensures (set h | h in a + b) == (set h | h in a) + (set h | h in b)
  {
    forall h | h in a + b ensures h in a || h in b {
      var i :| 0 <= i < |a + b| && (a + b)[i] == h;
      if i < |a| {
        assert a[i] == h;
      } else {
        assert b[i - |a|] == h;
      }
    }
  }

  /** The `ParseFullNameCSV` object: its configuration and its processing steps. */
  class ParseFullNameCsv {
    const parser: NameParser
    var inputFile: string
    var outputFile: string
    var fieldname: string
    var saveNamesOnly: bool

    /**
     * `__init__`: an output file or field name that is None or "" falls back to
     * the derived path and to "name" respectively.
     */
    constructor (parser: NameParser, inputFile: string, outputFile: Option<string>,
                 fieldName: Option<string>, saveNamesOnly: bool)
      requires EndsWith(inputFile, ".csv")
      ensures this.parser == parser && this.inputFile == inputFile
      ensures this.outputFile == if Truthy(outputFile) then outputFile.value else MakeOutputFilePath(inputFile)
      ensures this.fieldname == if Truthy(fieldName) then fieldName.value else DefaultInputFieldToParse
      ensures this.outputFile != [] && this.fieldname != []
      ensures this.saveNamesOnly == saveNamesOnly
    {
      this.parser := parser;
      this.inputFile := inputFile;
      this.outputFile := if Truthy(outputFile) then outputFile.value else MakeOutputFilePath(inputFile);
      this.fieldname := if Truthy(fieldName) then fieldName.value else DefaultInputFieldToParse;
      this.saveNamesOnly := saveNamesOnly;
    }

    /** `process_row`: copy the row, then update it with the parsed members. */
    method ProcessRow(row: Row) returns (r: Result<Row, Error>)
      ensures r == TransformRow(parser, fieldname, row)
    {
      var newRow := row;
      if fieldname !in row {
        return Err(MissingField(fieldname));
      }
      var value := parser.parse(row[fieldname]);
      var members := parser.members;
      var newData: map<string, string> := map[];
      for i := 0 to |members|
        invariant newData == ParsedFields(members[..i], value)
      {
        assert members[..i + 1][..i] == members[..i];
        newData := newData[ParsedPrefix + members[i] := value(members[i])];
      }
      assert members[..|members|] == members;
      newRow := newRow + newData;
      return Ok(newRow);
    }

    /**
     * `process_rows`: one transformed row per input row, in input order; the first
     * row without the field aborts with its KeyError.
     */
    method ProcessRows(rows: seq<Row>) returns (r: Result<seq<Row>, Error>)
      ensures r.Ok? <==> forall i :: 0 <= i < |rows| ==> fieldname in rows[i]
      ensures r.Err? ==> r.error == MissingField(fieldname)
      ensures r.Ok? ==> |r.value| == |rows|
      ensures r.Ok? ==> forall i :: 0 <= i < |rows| ==> r.value[i] == TransformRow(parser, fieldname, rows[i]).value
    {
      var newRows: seq<Row> := [];
      for i := 0 to |rows|
        invariant |newRows| == i
        invariant forall j :: 0 <= j < i ==> fieldname in rows[j]
        invariant forall j :: 0 <= j < i ==> newRows[j] == TransformRow(parser, fieldname, rows[j]).value
      {
        var newRow := ProcessRow(rows[i]);
        if newRow.Err? {
          return Err(newRow.error);
        }
        newRows := newRows + [newRow.value];
      }
      return Ok(newRows);
    }

    /**
     * `process_input_file`, given what `utils.read_csv` returned for the input
     * file: transform every row, compose the headers, and hand both to the writer
     * for the output file (returning status 0).
     */
    method ProcessInputFile(rows: seq<Row>, headers: seq<string>) returns (r: Result<CsvOutput, Error>)
      ensures r.Ok? <==> forall i :: 0 <= i < |rows| ==> fieldname in rows[i]
      ensures r.Err? ==> r.error == MissingField(fieldname)
      ensures r.Ok? ==> r.value.path == outputFile
      ensures r.Ok? ==> r.value.headers == OutputHeaders(parser.members, fieldname, saveNamesOnly, headers)
      ensures r.Ok? ==> |r.value.rows| == |rows|
      ensures r.Ok? ==> forall i :: 0 <= i < |rows| ==> r.value.rows[i] == TransformRow(parser, fieldname, rows[i]).value
    {
      var newRows := ProcessRows(rows);
      if newRows.Err? {
        return Err(newRows.error);
      }
      var newHeaders;
      if saveNamesOnly {
        newHeaders := HeadersToAdd(parser.members) + [fieldname];
      } else {
        newHeaders := HeadersToAdd(parser.members) + headers;
      }
      return Ok(CsvOutput(outputFile, newRows.value, newHeaders));
    }
  }
}
