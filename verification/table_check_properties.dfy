/** Properties of the per-table check of src/schema_functions.cpp: a
    position-based reference for the column check, what its diagnostics mean
    when names are unique, the primary-key rule, and how the key merge
    behaves. */
module TableCheckProperties {
  import opened Lexical
  import opened Schema
  import opened Sorting
  import opened SchemaFunctions

  /** The length of the longest common prefix of two name lists. */
  function CommonPrefixLength(a: seq<string>, b: seq<string>): (k: nat)
    ensures k <= |a| && k <= |b|
    ensures forall i :: 0 <= i < k ==> a[i] == b[i]
    ensures k < |a| && k < |b| ==> a[k] != b[k]
  {
    if |a| == 0 || |b| == 0 || a[0] != b[0] then 0
    else 1 + CommonPrefixLength(a[1..], b[1..])
  }

  /** The verdict of the column check, read off the first position `k` at
      which the two name lists part: nothing there on either side passes,
      nothing left on the `from` side is an extra column, a `from` name
      absent from the rest of `to` is missing, a `to` name absent from the
      rest of `from` is extra, and otherwise the columns are misordered. */
  function ColumnVerdict(table: string, from: seq<Column>, to: seq<Column>): Outcome
  {
    var fromNames := ColumnNames(from);
    var toNames := ColumnNames(to);
    var k := CommonPrefixLength(fromNames, toNames);
    if k == |from| && k == |to| then Ok
    else if k == |from| then Mismatch(ExtraColumn(table, to[k].name))
    else if fromNames[k] !in toNames[k..] then Mismatch(MissingColumn(table, from[k].name))
    else if toNames[k] !in fromNames[k..] then Mismatch(ExtraColumn(table, to[k].name))
    else Mismatch(MisorderedColumn(table, from[k].name, to[k].name))
  }

  /** The cursor loop of `check_columns_match` gives the first-divergence
      verdict. */
  lemma {:induction false} ColumnCheckIsFirstDivergence(table: string, from: seq<Column>, to: seq<Column>)
    ensures CheckColumnsMatch(table, from, to) == ColumnVerdict(table, from, to)
    decreases |from|
  {
    if |from| > 0 && |to| > 0 && to[0].name == from[0].name {
      var fromNames, toNames := ColumnNames(from), ColumnNames(to);
      assert fromNames[1..] == ColumnNames(from[1..]);
      assert toNames[1..] == ColumnNames(to[1..]);
      var k := CommonPrefixLength(fromNames, toNames);
      assert k == 1 + CommonPrefixLength(fromNames[1..], toNames[1..]);
      assert fromNames[k..] == fromNames[1..][k - 1..];
      assert toNames[k..] == toNames[1..][k - 1..];
      ColumnCheckIsFirstDivergence(table, from[1..], to[1..]);
    }
  }

  /** No name occurs twice in a column list. */
  predicate UniqueColumnNames(cs: seq<Column>)
  {
    forall i, j :: 0 <= i < j < |cs| ==> cs[i].name != cs[j].name
  }

  /** In a list without repeats, the name at the first point of divergence
      from another list is not in the shared prefix of that other list. */
  lemma DivergingNameNotInPrefix(a: seq<string>, b: seq<string>, k: nat)
    requires k < |a| && k <= |b| && forall i :: 0 <= i < k ==> a[i] == b[i]
    requires forall i, j :: 0 <= i < j < |a| ==> a[i] != a[j]
    ensures a[k] !in b[..k]
  {
    forall i | 0 <= i < k
      ensures b[..k][i] != a[k]
    {
      assert b[..k][i] == a[i];
    }
  }

  /** Unique column names give a name list without repeats. */
  lemma UniqueNamesDistinct(cs: seq<Column>)
    requires UniqueColumnNames(cs)
    ensures forall i, j :: 0 <= i < j < |cs| ==> ColumnNames(cs)[i] != ColumnNames(cs)[j]
  {
  }

  /** "Missing column" names a column that `from` has and `to` lacks. */
  lemma MissingColumnMeaning(table: string, from: seq<Column>, to: seq<Column>)
    requires UniqueColumnNames(from)
    ensures var r := CheckColumnsMatch(table, from, to);
            r.Mismatch? && r.diagnostic.MissingColumn? ==>
              r.diagnostic.column in ColumnNames(from) && r.diagnostic.column !in ColumnNames(to)
  {
    ColumnCheckIsFirstDivergence(table, from, to);
    var fromNames, toNames := ColumnNames(from), ColumnNames(to);
    var k := CommonPrefixLength(fromNames, toNames);
    if k < |from| && fromNames[k] !in toNames[k..] {
      assert toNames == toNames[..k] + toNames[k..];
      UniqueNamesDistinct(from);
      DivergingNameNotInPrefix(fromNames, toNames, k);
      assert fromNames[k] == from[k].name;
    }
  }

  /** "Extra column" names a column that `to` has and `from` lacks. */
  lemma ExtraColumnMeaning(table: string, from: seq<Column>, to: seq<Column>)
    requires UniqueColumnNames(to)
    ensures var r := CheckColumnsMatch(table, from, to);
            r.Mismatch? && r.diagnostic.ExtraColumn? ==>
              r.diagnostic.column in ColumnNames(to) && r.diagnostic.column !in ColumnNames(from)
  {
    ColumnCheckIsFirstDivergence(table, from, to);
    var fromNames, toNames := ColumnNames(from), ColumnNames(to);
    var k := CommonPrefixLength(fromNames, toNames);
    if k < |to| && (k == |from| || toNames[k] !in fromNames[k..]) {
      assert fromNames == fromNames[..k] + fromNames[k..];
      UniqueNamesDistinct(to);
      DivergingNameNotInPrefix(toNames, fromNames, k);
      assert toNames[k] == to[k].name;
    }
  }

  /** "Misordered column" names two columns both sides have. */
  lemma MisorderedColumnMeaning(table: string, from: seq<Column>, to: seq<Column>)
    ensures var r := CheckColumnsMatch(table, from, to);
            r.Mismatch? && r.diagnostic.MisorderedColumn? ==>
              && r.diagnostic.column in ColumnNames(from) && r.diagnostic.column in ColumnNames(to)
              && r.diagnostic.expectedFirst in ColumnNames(from) && r.diagnostic.expectedFirst in ColumnNames(to)
  {
    ColumnCheckIsFirstDivergence(table, from, to);
    var fromNames, toNames := ColumnNames(from), ColumnNames(to);
    var k := CommonPrefixLength(fromNames, toNames);
    if k < |from| && k < |to| && fromNames[k] in toNames[k..] && toNames[k] in fromNames[k..] {
      assert fromNames == fromNames[..k] + fromNames[k..];
      assert toNames == toNames[..k] + toNames[k..];
      assert fromNames[k] == from[k].name;
      assert toNames[k] == to[k].name;
    }
  }

  /** With unique names on each side, "Missing column" names a column that
      `to` lacks altogether, "Extra column" one that `from` lacks, and
      "Misordered column" two columns both sides have. */
  lemma ColumnDiagnosticMeaning(table: string, from: seq<Column>, to: seq<Column>)
    requires UniqueColumnNames(from) && UniqueColumnNames(to)
    ensures var r := CheckColumnsMatch(table, from, to);
            && (r.Mismatch? && r.diagnostic.MissingColumn? ==>
                  r.diagnostic.column in ColumnNames(from) && r.diagnostic.column !in ColumnNames(to))
            && (r.Mismatch? && r.diagnostic.ExtraColumn? ==>
                  r.diagnostic.column in ColumnNames(to) && r.diagnostic.column !in ColumnNames(from))
            && (r.Mismatch? && r.diagnostic.MisorderedColumn? ==>
                  && r.diagnostic.column in ColumnNames(from) && r.diagnostic.column in ColumnNames(to)
                  && r.diagnostic.expectedFirst in ColumnNames(from) && r.diagnostic.expectedFirst in ColumnNames(to))
  {
    MissingColumnMeaning(table, from, to);
    ExtraColumnMeaning(table, from, to);
    MisorderedColumnMeaning(table, from, to);
  }

  /** Any two columns with different names swapped in otherwise equal lists
      are reported as misordered, naming the `from` column and the one `to`
      has in its place. */
  lemma {:induction false} SwappedColumnsMisordered(table: string, p: seq<Column>, x: Column, m: seq<Column>,
                                                    y: Column, s: seq<Column>)
    requires x.name != y.name
    ensures CheckColumnsMatch(table, p + [x] + m + [y] + s, p + [y] + m + [x] + s)
            == Mismatch(MisorderedColumn(table, x.name, y.name))
    decreases |p|
  {
    var from, to := p + [x] + m + [y] + s, p + [y] + m + [x] + s;
    if |p| == 0 {
      assert from[0] == x && to[0] == y;
      assert from[|m| + 1] == y && to[|m| + 1] == x;
      assert ColumnNames(to)[|m| + 1] == x.name;
      assert ColumnNames(from)[|m| + 1] == y.name;
    } else {
      assert from[0] == p[0] && to[0] == p[0];
      assert from[1..] == p[1..] + [x] + m + [y] + s;
      assert to[1..] == p[1..] + [y] + m + [x] + s;
      SwappedColumnsMisordered(table, p[1..], x, m, y, s);
    }
  }

  /** Column types, sizes and nullability play no part: equal name lists
      always pass. */
  lemma ColumnCheckIgnoresColumnDetails(table: string, from: seq<Column>, to: seq<Column>)
    requires |from| == |to|
    requires forall i :: 0 <= i < |from| ==> from[i].name == to[i].name
    ensures CheckColumnsMatch(table, from, to) == Ok
  {
    assert ColumnNames(from) == ColumnNames(to);
  }

  /** The matcher compares raw primary-key column lists, so the primary key
      type does not change its verdict. */
  lemma PrimaryKeyTypeNotConsulted(from: Table, to: Table, fromType: PrimaryKeyType, toType: PrimaryKeyType)
    ensures CheckTableMatch(from.(primaryKeyType := fromType), to.(primaryKeyType := toType)) == CheckTableMatch(from, to)
  {
  }

  /** The matcher's primary-key rule and `same_primary_key_as` disagree both
      ways: two keyless tables that carry different leftover column lists
      are equal as tables but fail the matcher, and an explicit key against
      a chosen unique key on the same columns passes the matcher while the
      tables are unequal. */
  lemma PrimaryKeyRulesDiffer()
    ensures var a := NewTable("t").(primaryKeyColumns := [0]);
            var b := NewTable("t");
            TableEq(a, b) && CheckTableMatch(a, b) == Mismatch(MismatchingPrimaryKey("t", [], [0]))
    ensures var a := NewTable("t").(primaryKeyColumns := [0], primaryKeyType := ExplicitPrimaryKey);
            var b := NewTable("t").(primaryKeyColumns := [0], primaryKeyType := SuitableUniqueKey);
            !TableEq(a, b) && CheckTableMatch(a, b) == Ok
  {
    var a := NewTable("t").(primaryKeyColumns := [0]);
    var b := NewTable("t");
    assert SamePrimaryKeyAs(a, b);
    var c := NewTable("t").(primaryKeyColumns := [0], primaryKeyType := ExplicitPrimaryKey);
    var d := NewTable("t").(primaryKeyColumns := [0], primaryKeyType := SuitableUniqueKey);
    assert CountedPrimaryKey(c) != CountedPrimaryKey(d);
  }

  /** The unique flag is `unique()`, so a standard key and a spatial key of
      the same name and columns pass the key check. */
  lemma StandardAndSpatialKeyNotToldApart(table: string, name: string, columns: seq<nat>)
    ensures CheckKeysMatch(table, [Key(name, StandardKey, columns)], [Key(name, SpatialKey, columns)]) == Ok
  {
    var from, to := [Key(name, StandardKey, columns)], [Key(name, SpatialKey, columns)];
    assert SortKeys(from) == from && SortKeys(to) == to;
  }

  /** The key lists are sorted by (key type, name) but merged by name alone:
      a key that changed type can be reported missing although `to` holds a
      key of that name. */
  lemma RetypedKeyReportedMissing(table: string)
    ensures var from := [Key("a", StandardKey, []), Key("b", SpatialKey, [])];
            var to := [Key("a", SpatialKey, []), Key("b", StandardKey, [])];
            && "a" in (set k | k in to :: k.name)
            && CheckKeysMatch(table, from, to) == Mismatch(MissingKey(table, "a"))
  {
    var from := [Key("a", StandardKey, []), Key("b", SpatialKey, [])];
    var to := [Key("a", SpatialKey, []), Key("b", StandardKey, [])];
    assert to[0] in to;
    var sortedTo := [Key("b", StandardKey, []), Key("a", SpatialKey, [])];
    assert SortKeys(from) == from;
    assert SortKeys(to) == sortedTo;
    assert StrLess("a", "b");
  }

  /** A table whose only key is `k`, with `k` unique on `from` and standard
      on `to`, is reported with that key's unique-flag mismatch. */
  lemma UniqueFlagChangeReported(from: Table, k: Key)
    requires k.keyType == UniqueKey && from.keys == [k]
    ensures CheckTableMatch(from, from.(keys := [k.(keyType := StandardKey)]))
            == Mismatch(MismatchingUniqueFlag(from.name, k.name))
  {
    var k2 := k.(keyType := StandardKey);
    assert SortKeys([k]) == [k] && SortKeys([k2]) == [k2];
    StrLessIrreflexive(k.name);
    assert CheckColumnsMatch(from.name, from.columns, from.columns) == Ok;
  }

  /** With a second key beside it, the same change of unique flag is not
      reported as such: the flag change moves the key to the other end of
      the (type, name) order, and the name-only merge then reports the other
      key as extra. */
  lemma UniqueFlagChangeReportedAsExtraKey(table: string)
    ensures var from := [Key("z", UniqueKey, []), Key("a", StandardKey, [])];
            var to := [Key("z", StandardKey, []), Key("a", StandardKey, [])];
            && "a" in (set k | k in from :: k.name)
            && CheckKeysMatch(table, from, to) == Mismatch(ExtraKey(table, "a"))
  {
    var from := [Key("z", UniqueKey, []), Key("a", StandardKey, [])];
    var to := [Key("z", StandardKey, []), Key("a", StandardKey, [])];
    assert from[1] in from;
    var sortedTo := [Key("a", StandardKey, []), Key("z", StandardKey, [])];
    assert SortKeys(from) == from;
    assert SortKeys(to) == sortedTo;
    assert StrLess("a", "z");
  }

  /** Keys that `to` has beyond a fully agreeing prefix are reported extra,
      starting with the first of them. */
  lemma {:induction false} LeftoverKeyReportedExtra(table: string, from: seq<Key>, to: seq<Key>)
    requires |from| < |to| && KeyListsAgree(from, to[..|from|])
    ensures MatchKeys(table, from, to) == Mismatch(ExtraKey(table, to[|from|].name))
    decreases |from|
  {
    if |from| > 0 {
      assert from[0].name == to[0].name;
      StrLessIrreflexive(from[0].name);
      assert KeyListsAgree(from[1..], to[1..][..|from| - 1]) by {
        forall i | 0 <= i < |from| - 1
          ensures from[1..][i] == from[i + 1] && to[1..][..|from| - 1][i] == to[..|from|][i + 1]
        {
        }
      }
      LeftoverKeyReportedExtra(table, from[1..], to[1..]);
    }
  }
}
