/** The schema matcher of src/schema_functions.cpp: compares the schema sent by
    the `from` end with the local `to` schema and reports the first structural
    disagreement. Every `report_schema_mismatch` throw becomes a `Mismatch`
    result carrying the kind of disagreement and the names involved. */
module SchemaFunctions {
  import opened Lexical
  import opened Schema
  import opened Sorting

  datatype Diagnostic =
    | MissingTable(table: string)
    | ExtraTable(table: string)
    | MissingColumn(table: string, column: string)
    | ExtraColumn(table: string, column: string)
    | MisorderedColumn(table: string, column: string, expectedFirst: string)
    // the `to` list first, then the list the `from` end wants
    | MismatchingPrimaryKey(table: string, found: seq<nat>, expected: seq<nat>)
    | MissingKey(table: string, key: string)
    | ExtraKey(table: string, key: string)
    | MismatchingUniqueFlag(table: string, key: string)
    | MismatchingKeyColumns(table: string, key: string, found: seq<nat>, expected: seq<nat>)

  /** The outcome of a check: it either passes or stops at one mismatch. */
  datatype Outcome = Ok | Mismatch(diagnostic: Diagnostic)

  predicate IsColumnDiagnostic(d: Diagnostic)
  {
    d.MissingColumn? || d.ExtraColumn? || d.MisorderedColumn?
  }

  predicate IsKeyDiagnostic(d: Diagnostic)
  {
    d.MissingKey? || d.ExtraKey? || d.MismatchingUniqueFlag? || d.MismatchingKeyColumns?
  }

  /** `check_columns_match`, as a recursion over the unvisited suffixes of the
      two column lists. Only names and their order are checked:
      `check_column_match` has an empty body. */
  function CheckColumnsMatch(table: string, from: seq<Column>, to: seq<Column>): (r: Outcome)
    ensures r.Ok? <==> ColumnNames(from) == ColumnNames(to)
    ensures r.Mismatch? ==> r.diagnostic.table == table && IsColumnDiagnostic(r.diagnostic)
    decreases |from|
  {
    if |from| == 0 then
      if |to| > 0 then Mismatch(ExtraColumn(table, to[0].name)) else Ok
    else if |to| > 0 && to[0].name == from[0].name then
      assert ColumnNames(from) == [from[0].name] + ColumnNames(from[1..]);
      assert ColumnNames(to) == [to[0].name] + ColumnNames(to[1..]);
      CheckColumnsMatch(table, from[1..], to[1..])
    else if from[0].name !in ColumnNames(to) then
      Mismatch(MissingColumn(table, from[0].name))
    else if to[0].name !in ColumnNames(from) then
      Mismatch(ExtraColumn(table, to[0].name))
    else
      Mismatch(MisorderedColumn(table, from[0].name, to[0].name))
  }

  /** `check_primary_key_matches`: the raw index lists must be equal, in
      order; the primary key type is not consulted. */
  function CheckPrimaryKeyMatches(table: string, fromColumns: seq<nat>, toColumns: seq<nat>): (r: Outcome)
    ensures r.Ok? <==> fromColumns == toColumns
    ensures r.Mismatch? ==> r.diagnostic == MismatchingPrimaryKey(table, toColumns, fromColumns)
  {
    if fromColumns != toColumns then Mismatch(MismatchingPrimaryKey(table, toColumns, fromColumns)) else Ok
  }

  /** `check_key_match` for two keys of the same name: the unique flag, then
      the column list. The flag is `unique()`, so a standard key and a
      spatial key are not told apart here. */
  function CheckKeyMatch(table: string, fromKey: Key, toKey: Key): (r: Outcome)
    ensures r.Ok? <==> fromKey.Unique() == toKey.Unique() && fromKey.columns == toKey.columns
    ensures r.Mismatch? ==> r.diagnostic.table == table && IsKeyDiagnostic(r.diagnostic) && r.diagnostic.key == fromKey.name
    ensures fromKey.Unique() != toKey.Unique() ==> r.Mismatch? && r.diagnostic.MismatchingUniqueFlag?
    ensures fromKey.Unique() == toKey.Unique() && fromKey.columns != toKey.columns
            ==> r.Mismatch? && r.diagnostic.MismatchingKeyColumns?
  {
    if fromKey.Unique() != toKey.Unique() then
      Mismatch(MismatchingUniqueFlag(table, fromKey.name))
    else if fromKey.columns != toKey.columns then
      Mismatch(MismatchingKeyColumns(table, fromKey.name, toKey.columns, fromKey.columns))
    else
      Ok
  }

  /** Two key lists agree position by position on what the matcher checks:
      name, unique flag and column list. */
  predicate KeyListsAgree(a: seq<Key>, b: seq<Key>)
  {
    |a| == |b| &&
    forall i :: 0 <= i < |a| ==>
      a[i].name == b[i].name && a[i].Unique() == b[i].Unique() && a[i].columns == b[i].columns
  }

  /** The merge loop of `check_keys_match` over already sorted key lists;
      it advances by comparing names only. */
  function MatchKeys(table: string, from: seq<Key>, to: seq<Key>): (r: Outcome)
    ensures r.Ok? <==> KeyListsAgree(from, to)
    ensures r.Mismatch? ==> r.diagnostic.table == table && IsKeyDiagnostic(r.diagnostic)
    decreases |from|
  {
    if |from| == 0 then
      if |to| > 0 then Mismatch(ExtraKey(table, to[0].name)) else Ok
    else if |to| == 0 || StrLess(from[0].name, to[0].name) then
      StrLessIrreflexive(from[0].name);
      Mismatch(MissingKey(table, from[0].name))
    else if StrLess(to[0].name, from[0].name) then
      StrLessIrreflexive(to[0].name);
      Mismatch(ExtraKey(table, to[0].name))
    else
      StrLessConnected(from[0].name, to[0].name);
      match CheckKeyMatch(table, from[0], to[0])
      case Ok =>
        assert KeyListsAgree(from, to) <==> KeyListsAgree(from[1..], to[1..]) by {
          if KeyListsAgree(from[1..], to[1..]) {
            forall i | 0 <= i < |from|
              ensures from[i].name == to[i].name && from[i].Unique() == to[i].Unique()
              ensures from[i].columns == to[i].columns
            {
              if i > 0 {
                assert from[i] == from[1..][i - 1] && to[i] == to[1..][i - 1];
              }
            }
          }
        }
        MatchKeys(table, from[1..], to[1..])
      case failed => failed
  }

  /** `check_keys_match`: sort both by-value copies by (key type, name),
      then merge. */
  function CheckKeysMatch(table: string, fromKeys: seq<Key>, toKeys: seq<Key>): (r: Outcome)
    ensures r.Ok? <==> KeyListsAgree(SortKeys(fromKeys), SortKeys(toKeys))
    ensures r.Mismatch? ==> r.diagnostic.table == table && IsKeyDiagnostic(r.diagnostic)
  {
    MatchKeys(table, SortKeys(fromKeys), SortKeys(toKeys))
  }

  /** `check_table_match`: columns, then primary key, then keys; every
      diagnostic names the `from` table. */
  function CheckTableMatch(from: Table, to: Table): (r: Outcome)
    ensures r.Ok? <==>
              && ColumnNames(from.columns) == ColumnNames(to.columns)
              && from.primaryKeyColumns == to.primaryKeyColumns
              && KeyListsAgree(SortKeys(from.keys), SortKeys(to.keys))
    ensures r.Mismatch? ==> r.diagnostic.table == from.name
    ensures ColumnNames(from.columns) != ColumnNames(to.columns)
            ==> r.Mismatch? && IsColumnDiagnostic(r.diagnostic)
    ensures ColumnNames(from.columns) == ColumnNames(to.columns) && from.primaryKeyColumns != to.primaryKeyColumns
            ==> r.Mismatch? && r.diagnostic.MismatchingPrimaryKey?
    ensures (ColumnNames(from.columns) == ColumnNames(to.columns) && from.primaryKeyColumns == to.primaryKeyColumns
             && r.Mismatch?) ==> IsKeyDiagnostic(r.diagnostic)
  {
    var columns := CheckColumnsMatch(from.name, from.columns, to.columns);
    if columns.Mismatch? then columns
    else
      var primaryKey := CheckPrimaryKeyMatches(from.name, from.primaryKeyColumns, to.primaryKeyColumns);
      if primaryKey.Mismatch? then primaryKey
      else CheckKeysMatch(from.name, from.keys, to.keys)
  }

  /** The `ignore_tables` and `only_tables` sets. */
  datatype TableFilter = TableFilter(ignoreTables: set<string>, onlyTables: set<string>)

  /** A table takes part in the comparison unless it is ignored, or a
      non-empty `only` set leaves it out. */
  predicate InScope(name: string, filter: TableFilter)
  {
    name !in filter.ignoreTables && (filter.onlyTables == {} || name in filter.onlyTables)
  }

  /** `skip_ignored_tables`: the suffix starting at the first in-scope table. */
  function SkipIgnoredTables(ts: seq<Table>, filter: TableFilter): (rest: seq<Table>)
    ensures |rest| <= |ts| && rest == ts[|ts| - |rest|..]
    ensures |rest| > 0 ==> InScope(rest[0].name, filter)
    ensures forall i :: 0 <= i < |ts| - |rest| ==> !InScope(ts[i].name, filter)
  {
    if |ts| == 0 || InScope(ts[0].name, filter) then ts
    else SkipIgnoredTables(ts[1..], filter)
  }

  /** The merge loop of `check_tables_match` over sorted table lists, with
      both cursors kept on in-scope tables. */
  function MatchTables(from: seq<Table>, to: seq<Table>, filter: TableFilter): (r: Outcome)
    ensures r.Mismatch? ==> InScope(r.diagnostic.table, filter)
    decreases |from|
  {
    var fromRest := SkipIgnoredTables(from, filter);
    var toRest := SkipIgnoredTables(to, filter);
    if |fromRest| == 0 then
      if |toRest| > 0 then Mismatch(ExtraTable(toRest[0].name)) else Ok
    else if |toRest| == 0 || StrLess(fromRest[0].name, toRest[0].name) then
      Mismatch(MissingTable(fromRest[0].name))
    else if StrLess(toRest[0].name, fromRest[0].name) then
      Mismatch(ExtraTable(toRest[0].name))
    else
      match CheckTableMatch(fromRest[0], toRest[0])
      case Ok =>
        MatchTables(fromRest[1..], toRest[1..], filter)
      case failed => failed
  }

  /** `check_schema_match`: sort by-value copies of both table lists by
      name, then merge them under the filter. */
  function CheckSchemaMatch(fromDatabase: Database, toDatabase: Database,
                            ignoreTables: set<string>, onlyTables: set<string>): (r: Outcome)
    ensures r.Mismatch? ==> InScope(r.diagnostic.table, TableFilter(ignoreTables, onlyTables))
  {
    MatchTables(SortTables(fromDatabase.tables), SortTables(toDatabase.tables), TableFilter(ignoreTables, onlyTables))
  }
}
