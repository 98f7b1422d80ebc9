/** `make_json_from_table` (src/handlers/tables_handler.py): accept a
    spreadsheet path by its ending, take its `variable_name` and
    `variable_value` columns and pair them row by row into a mapping. The
    spreadsheet reader and the coercion and export helpers are parameters. */
module TablesHandler {
  import opened Wrappers
  import opened PyStr

  /** The suffixes the path may end with; only the first has a dot. */
  const AvailableExtensions: seq<string> := [".xlsx", "xlsx", "xlsm", "xlsb", "odf", "ods", "odt"]

  /** The message of the `ValueError` for any other path. */
  const UnsupportedMessage := "No support extension"

  /** A spreadsheet as `read_excel(...).to_dict()` gives it: each column name
      with the column's cells in row order (row `k` at index `k`). */
  type Table<C> = map<string, seq<C>>

  datatype TableError =
    | ValueError(message: string)    // the path has no accepted ending
    | ColumnKeyError(column: string) // the table lacks a required column
    | RowKeyError(row: nat)          // the value column has no cell for a row
    | CoercionError(message: string) // the coercion helper raised
    | ReadError(message: string)     // opening or reading the workbook raised

  /** Whether the path ends with at least one of the suffixes. */
  function AnyEndsWith(path: string, extensions: seq<string>): (b: bool)
    ensures b <==> exists i :: 0 <= i < |extensions| && EndsWith(path, extensions[i])
  {
    if extensions == [] then false
    else EndsWith(path, extensions[0]) || AnyEndsWith(path, extensions[1..])
  }

  /** The path check of the import: the path ends with one of the accepted
      suffixes. */
  predicate IsSupported(path: string)
    ensures IsSupported(path) <==> exists i :: 0 <= i < |AvailableExtensions| && EndsWith(path, AvailableExtensions[i])
  {
    AnyEndsWith(path, AvailableExtensions)
  }

  /** The `.xlsx` entry adds nothing: a path ending in `.xlsx` ends in `xlsx`. */
  lemma DotXlsxRedundant(path: string)
    ensures IsSupported(path) <==> AnyEndsWith(path, AvailableExtensions[1..])
  {
    if EndsWith(path, ".xlsx") {
      assert path[|path| - 4..] == path[|path| - 5..][1..];
      assert EndsWith(path, "xlsx");
    }
  }

  /** The suffixes need no dot, so any name ending in those letters is
      accepted. */
  lemma AcceptsUndottedSuffix()
    ensures IsSupported("reportxlsm")
  {
    assert EndsWith("reportxlsm", "xlsm");
  }

  /** A path whose last character ends none of the suffixes is refused. */
  lemma RefusedByLastChar(path: string)
    requires path != []
    requires path[|path| - 1] !in {'x', 'm', 'b', 'f', 's', 't'}
    ensures !IsSupported(path)
  {
    forall i | 0 <= i < |AvailableExtensions| ensures !EndsWith(path, AvailableExtensions[i]) {
      var e := AvailableExtensions[i];
      if |e| <= |path| {
        assert path[|path| - |e|..][|e| - 1] == path[|path| - 1];
      }
    }
  }

  /** `.csv` is refused. */
  lemma RefusesCsv()
    ensures !IsSupported("table.csv")
  {
    RefusedByLastChar("table.csv");
  }

  /** `.xls` is refused: of the suffixes only `ods` ends in `s`, and the
      path does not end in `ods`. */
  lemma RefusesXls()
    ensures !IsSupported("table.xls")
  {
    var path := "table.xls";
    forall i | 0 <= i < |AvailableExtensions| ensures !EndsWith(path, AvailableExtensions[i]) {
      var e := AvailableExtensions[i];
      assert path[|path| - |e|..][|e| - 1] == path[|path| - 1];
      if i == 5 {
        assert path[|path| - 3..][0] == 'x';
      }
    }
  }

  /** The pairing loop as a function of the two columns: row after row, the
      name cell maps to the value cell of the same row. */
  function Paired<C(==)>(names: seq<C>, values: seq<C>): (r: Result<map<C, C>, TableError>)
    ensures |names| <= |values| <==> r.Success?
    ensures r.Failure? ==> r.error == RowKeyError(|values|)
  {
    if names == [] then Success(map[])
    else
      var n := |names| - 1;
      match Paired(names[..n], values)
      case Failure(e) => Failure(e)
      case Success(m) => if n < |values| then Success(m[names[n] := values[n]]) else Failure(RowKeyError(n))
  }

  /** The pairing loop: row by row, in row order, the name cell becomes a key
      bound to the value cell of the same row. */
  method PairColumns<C(==)>(variableNames: seq<C>, variableValues: seq<C>) returns (r: Result<map<C, C>, TableError>)
    ensures r == Paired(variableNames, variableValues)
  {
    var resultData: map<C, C> := map[];
    var k := 0;
    while k < |variableNames|
      invariant 0 <= k <= |variableNames|
      invariant Paired(variableNames[..k], variableValues) == Success(resultData)
    {
      assert variableNames[..k + 1][..k] == variableNames[..k];
      if k >= |variableValues| {
        PairedPrefixFails(variableNames, variableValues, k + 1);
        return Failure(RowKeyError(k));
      }
      resultData := resultData[variableNames[k] := variableValues[k]];
      k := k + 1;
    }
    assert variableNames[..|variableNames|] == variableNames;
    r := Success(resultData);
  }

  /** A failing prefix of the name column makes the whole pairing fail in
      the same way. */
  lemma PairedPrefixFails<C>(names: seq<C>, values: seq<C>, n: nat)
    requires n <= |names|
    requires Paired(names[..n], values).Failure?
    ensures Paired(names, values) == Paired(names[..n], values)
  {
  }

  /** The keys of the pairing are exactly the cells of the name column. */
  lemma {:induction false} PairedKeys<C>(names: seq<C>, values: seq<C>)
    requires Paired(names, values).Success?
    ensures Paired(names, values).value.Keys == set x | x in names
  {
    if names != [] {
      var n := |names| - 1;
      PairedKeys(names[..n], values);
      assert names == names[..n] + [names[n]];
      assert (set x | x in names) == (set x | x in names[..n]) + {names[n]};
    }
  }

  /** Each row contributes its own value cell unless a later row repeats its
      name, and then the later row's value is the one kept. */
  lemma {:induction false} PairedLastWins<C>(names: seq<C>, values: seq<C>, i: nat)
    requires Paired(names, values).Success?
    requires i < |names|
    requires forall j :: i < j < |names| ==> names[j] != names[i]
    ensures names[i] in Paired(names, values).value
    ensures Paired(names, values).value[names[i]] == values[i]
  {
    var n := |names| - 1;
    if i < n {
      assert names[..n][i] == names[i];
      forall j | i < j < n ensures names[..n][j] != names[..n][i] {
        assert names[..n][j] == names[j];
      }
      PairedLastWins(names[..n], values, i);
    }
  }

  /** `make_json_from_table`: check the path, open and read the table, look
      up the name and then the value column, pair them, coerce the mapping
      after the example and render it. `readExcel` stands for
      `read_excel(open(path, "rb")).to_dict()`, failing with the message of
      what the open or the read raised. */
  method MakeJsonFromTable<C(==), D, T>(
    tablePath: string,
    exampleDict: D,
    readExcel: string -> Result<Table<C>, string>,
    fixDictValuesType: (map<C, C>, D) -> Result<T, string>,
    correctDictToExport: T -> string
  ) returns (r: Result<string, TableError>)
    ensures !IsSupported(tablePath) ==> r == Failure(ValueError(UnsupportedMessage))
    ensures IsSupported(tablePath) && readExcel(tablePath).Failure? ==>
      r == Failure(ReadError(readExcel(tablePath).error))
    ensures IsSupported(tablePath) && readExcel(tablePath).Success?
            && "variable_name" !in readExcel(tablePath).value ==>
      r == Failure(ColumnKeyError("variable_name"))
    ensures IsSupported(tablePath) && readExcel(tablePath).Success?
            && "variable_name" in readExcel(tablePath).value
            && "variable_value" !in readExcel(tablePath).value ==>
      r == Failure(ColumnKeyError("variable_value"))
    ensures IsSupported(tablePath) && readExcel(tablePath).Success?
            && "variable_name" in readExcel(tablePath).value
            && "variable_value" in readExcel(tablePath).value ==>
      var data := readExcel(tablePath).value;
      r == match Paired(data["variable_name"], data["variable_value"])
           case Failure(e) => Failure(e)
           case Success(m) =>
             match fixDictValuesType(m, exampleDict)
             case Failure(msg) => Failure(CoercionError(msg))
             case Success(t) => Success(correctDictToExport(t))
    ensures r.Success? ==>
      && IsSupported(tablePath) && readExcel(tablePath).Success?
      && var data := readExcel(tablePath).value;
         && "variable_name" in data && "variable_value" in data
         && var paired := Paired(data["variable_name"], data["variable_value"]);
            && paired.Success?
            && fixDictValuesType(paired.value, exampleDict).Success?
            && r.value == correctDictToExport(fixDictValuesType(paired.value, exampleDict).value)
  {
    if !AnyEndsWith(tablePath, AvailableExtensions) {
      return Failure(ValueError(UnsupportedMessage));
    }
    var read := readExcel(tablePath);
    if read.Failure? {
      return Failure(ReadError(read.error));
    }
    var data := read.value;
    if "variable_name" !in data {
      return Failure(ColumnKeyError("variable_name"));
    }
    var variableNames := data["variable_name"];
    if "variable_value" !in data {
      return Failure(ColumnKeyError("variable_value"));
    }
    var variableValues := data["variable_value"];
    var resultData := PairColumns(variableNames, variableValues);
    if resultData.Failure? {
      return Failure(resultData.error);
    }
    var fixed := fixDictValuesType(resultData.value, exampleDict);
    if fixed.Failure? {
      return Failure(CoercionError(fixed.error));
    }
    r := Success(correctDictToExport(fixed.value));
  }
}
