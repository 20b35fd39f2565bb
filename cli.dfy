/**
 * `main` of parse_full_name_csv.py after option parsing: choose the input file
 * from the `-i` option or the single positional argument, then build the
 * `ParseFullNameCSV` object and process the file.
 */
module Cli {
  import opened Wrappers
  import opened FullNameCsv

  const TooManyArgumentsMessage := "too many arguments, please supply only one argument (input_file)"
  const MissingInputMessage := "please provide an input_file by argument or -i option"

  /** What `OptionParser.parse_args` returns besides the positional arguments. */
  datatype Options = Options(
    inputFile: Option<string>,
    outputFile: Option<string>,
    fieldName: Option<string>,
    saveNamesOnly: bool)

  /**
   * The input file: a non-empty `-i` wins over positional arguments; without it
   * exactly one positional argument is needed, and both two or more and none are
   * usage errors.
   */
  function SelectInputFile(inputOption: Option<string>, args: seq<string>): (r: Result<string, Error>)
    ensures Truthy(inputOption) ==> r == Ok(inputOption.value)
    ensures !Truthy(inputOption) && |args| == 1 ==> r == Ok(args[0])
    ensures !Truthy(inputOption) && |args| >= 2 ==> r == Err(Usage(TooManyArgumentsMessage))
    ensures !Truthy(inputOption) && args == [] ==> r == Err(Usage(MissingInputMessage))
    ensures r.Err? <==> !Truthy(inputOption) && |args| != 1
  {
    if args != [] && !Truthy(inputOption) then
      if |args| == 1 then Ok(args[0]) else Err(Usage(TooManyArgumentsMessage))
    else if !Truthy(inputOption) then
      Err(Usage(MissingInputMessage))
    else
      Ok(inputOption.value)
  }

  /**
   * `main` from the parsed options on, given the rows and headers that reading the
   * chosen input file yields: a usage error before anything else, then the ".csv"
   * assertion of `__init__`, then `process_input_file`.
   */
  method Run(parser: NameParser, options: Options, args: seq<string>, rows: seq<Row>, headers: seq<string>)
    returns (r: Result<CsvOutput, Error>)
    ensures SelectInputFile(options.inputFile, args).Err? ==> r == Err(SelectInputFile(options.inputFile, args).error)
    ensures SelectInputFile(options.inputFile, args).Ok? ==>
      var input := SelectInputFile(options.inputFile, args).value;
      var fieldname := if Truthy(options.fieldName) then options.fieldName.value else DefaultInputFieldToParse;
      && (!EndsWith(input, ".csv") ==> r == Err(InvalidInput(input)))
      && (EndsWith(input, ".csv") ==>
            && (r.Ok? <==> forall i :: 0 <= i < |rows| ==> fieldname in rows[i])
            && (r.Err? ==> r.error == MissingField(fieldname))
            && (r.Ok? ==> r.value.path == (if Truthy(options.outputFile) then options.outputFile.value else MakeOutputFilePath(input)))
            && (r.Ok? ==> r.value.headers == OutputHeaders(parser.members, fieldname, options.saveNamesOnly, headers))
            && (r.Ok? ==> |r.value.rows| == |rows|)
            && (r.Ok? ==> forall i :: 0 <= i < |rows| ==> r.value.rows[i] == TransformRow(parser, fieldname, rows[i]).value))
  {
    var input := SelectInputFile(options.inputFile, args);
    if input.Err? {
      return Err(input.error);
    }
    if !EndsWith(input.value, ".csv") {
      return Err(InvalidInput(input.value));
    }
    var pfn := new ParseFullNameCsv(parser, input.value, options.outputFile, options.fieldName, options.saveNamesOnly);
    r := pfn.ProcessInputFile(rows, headers);
  }
}
