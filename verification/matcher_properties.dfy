/** What the table-level matcher promises: a schema always matches itself,
    tables outside the filter are never compared or named, and the first
    report is about the smallest in-scope table name on which the two sides
    disagree. */
module MatcherProperties {
  import opened Lexical
  import opened Schema
  import opened Sorting
  import opened SchemaFunctions

  /** The in-scope tables, in their original order. */
  function FilterTables(ts: seq<Table>, filter: TableFilter): (r: seq<Table>)
    ensures |r| <= |ts|
  {
    if |ts| == 0 then []
    else if InScope(ts[0].name, filter) then [ts[0]] + FilterTables(ts[1..], filter)
    else FilterTables(ts[1..], filter)
  }

  /** Two table lists pair up position by position into tables of the same
      name that pass `CheckTableMatch`. */
  predicate TableListsAgree(a: seq<Table>, b: seq<Table>)
  {
    |a| == |b| && forall i :: 0 <= i < |a| ==> TablesPair(a[i], b[i])
  }

  /** Two tables of the same name that pass `CheckTableMatch`. */
  predicate TablesPair(a: Table, b: Table)
  {
    a.name == b.name && CheckTableMatch(a, b).Ok?
  }

  /** The table merge of `check_tables_match` on lists that hold only
      in-scope tables, so that no skipping is needed. */
  function MatchScoped(from: seq<Table>, to: seq<Table>): (r: Outcome)
    ensures r.Ok? <==> TableListsAgree(from, to)
    decreases |from|
  {
    if |from| == 0 then
      if |to| > 0 then Mismatch(ExtraTable(to[0].name)) else Ok
    else if |to| == 0 || StrLess(from[0].name, to[0].name) then
      StrLessIrreflexive(from[0].name);
      Mismatch(MissingTable(from[0].name))
    else if StrLess(to[0].name, from[0].name) then
      StrLessIrreflexive(to[0].name);
      Mismatch(ExtraTable(to[0].name))
    else
      StrLessConnected(from[0].name, to[0].name);
      match CheckTableMatch(from[0], to[0])
      case Ok =>
        TableListsAgreeCons(from, to);
        MatchScoped(from[1..], to[1..])
      case failed => failed
  }

  lemma TableListsAgreeCons(from: seq<Table>, to: seq<Table>)
    requires |from| > 0 && |to| > 0
    ensures TableListsAgree(from, to) <==> TablesPair(from[0], to[0]) && TableListsAgree(from[1..], to[1..])
  {
    if TablesPair(from[0], to[0]) && TableListsAgree(from[1..], to[1..]) {
      forall i | 0 <= i < |from|
        ensures TablesPair(from[i], to[i])
      {
        if i > 0 {
          assert from[i] == from[1..][i - 1] && to[i] == to[1..][i - 1];
        }
      }
    }
  }

  /** The filtered list holds exactly the in-scope tables of the original. */
  lemma {:induction false} FilterMembers(ts: seq<Table>, filter: TableFilter)
    ensures forall t :: t in FilterTables(ts, filter) <==> t in ts && InScope(t.name, filter)
  {
    if |ts| > 0 {
      FilterMembers(ts[1..], filter);
      assert forall t :: t in ts <==> t == ts[0] || t in ts[1..];
    }
  }

  lemma {:induction false} FilterSkipped(ts: seq<Table>, filter: TableFilter)
    ensures FilterTables(ts, filter) == FilterTables(SkipIgnoredTables(ts, filter), filter)
  {
    if |ts| > 0 && !InScope(ts[0].name, filter) {
      FilterSkipped(ts[1..], filter);
    }
  }

  /** Skipping out-of-scope tables while merging is the same as filtering
      both lists first and merging what is left. */
  lemma {:induction false} MatchTablesFiltersFirst(from: seq<Table>, to: seq<Table>, filter: TableFilter)
    ensures MatchTables(from, to, filter) == MatchScoped(FilterTables(from, filter), FilterTables(to, filter))
    decreases |from|
  {
    var fromRest := SkipIgnoredTables(from, filter);
    var toRest := SkipIgnoredTables(to, filter);
    FilterSkipped(from, filter);
    FilterSkipped(to, filter);
    var fromScoped, toScoped := FilterTables(from, filter), FilterTables(to, filter);
    if |fromRest| > 0 && |toRest| > 0 {
      var f0, t0 := fromRest[0], toRest[0];
      var fromTail, toTail := FilterTables(fromRest[1..], filter), FilterTables(toRest[1..], filter);
      assert fromScoped == [f0] + fromTail;
      assert toScoped == [t0] + toTail;
      assert fromScoped[1..] == fromTail && toScoped[1..] == toTail;
      var check := CheckTableMatch(f0, t0);
      assert MatchTables(from, to, filter) ==
        if StrLess(f0.name, t0.name) then Mismatch(MissingTable(f0.name))
        else if StrLess(t0.name, f0.name) then Mismatch(ExtraTable(t0.name))
        else if check.Ok? then MatchTables(fromRest[1..], toRest[1..], filter)
        else check;
      assert MatchScoped(fromScoped, toScoped) ==
        if StrLess(f0.name, t0.name) then Mismatch(MissingTable(f0.name))
        else if StrLess(t0.name, f0.name) then Mismatch(ExtraTable(t0.name))
        else if check.Ok? then MatchScoped(fromTail, toTail)
        else check;
      MatchTablesFiltersFirst(fromRest[1..], toRest[1..], filter);
    } else if |fromRest| > 0 {
      assert fromScoped == [fromRest[0]] + FilterTables(fromRest[1..], filter);
      assert toScoped == [];
    } else if |toRest| > 0 {
      assert fromScoped == [];
      assert toScoped == [toRest[0]] + FilterTables(toRest[1..], filter);
    } else {
      assert fromScoped == [] && toScoped == [];
    }
  }

  lemma {:induction false} FilterConcat(a: seq<Table>, b: seq<Table>, filter: TableFilter)
    ensures FilterTables(a + b, filter) == FilterTables(a, filter) + FilterTables(b, filter)
  {
    if |a| > 0 {
      assert (a + b)[1..] == a[1..] + b;
      FilterConcat(a[1..], b, filter);
    } else {
      assert a + b == b;
    }
  }

  lemma {:induction false} FilterInsert(t: Table, s: seq<Table>, filter: TableFilter)
    requires TablesSorted(s)
    ensures FilterTables(InsertTable(t, s), filter) ==
            if InScope(t.name, filter) then InsertTable(t, FilterTables(s, filter)) else FilterTables(s, filter)
  {
    if |s| == 0 {
    } else if TableLess(s[0], t) {
      FilterInsert(t, s[1..], filter);
      var inner := InsertTable(t, s[1..]);
      assert ([s[0]] + inner)[1..] == inner;
      if InScope(s[0].name, filter) {
        var fs := FilterTables(s[1..], filter);
        assert ([s[0]] + fs)[1..] == fs;
      }
    } else {
      assert ([t] + s)[1..] == s;
      var fs := FilterTables(s, filter);
      if InScope(t.name, filter) && |fs| > 0 {
        FilterMembers(s, filter);
        assert fs[0] in s;
        var j :| 0 <= j < |s| && s[j] == fs[0];
        if j > 0 {
          StrNotLessTransitive(t.name, s[0].name, s[j].name);
        }
      }
    }
  }

  /** Sorting commutes with filtering. */
  lemma {:induction false} FilterSortCommute(ts: seq<Table>, filter: TableFilter)
    ensures FilterTables(SortTables(ts), filter) == SortTables(FilterTables(ts, filter))
  {
    if |ts| > 0 {
      FilterSortCommute(ts[1..], filter);
      FilterInsert(ts[0], SortTables(ts[1..]), filter);
      if InScope(ts[0].name, filter) {
        var fs := FilterTables(ts[1..], filter);
        assert ([ts[0]] + fs)[1..] == fs;
      }
    }
  }

  /** Only in-scope tables take part: the outcome is the merge of the sorted
      in-scope tables of each side. */
  lemma CheckSchemaMatchComparesInScopeTables(from: Database, to: Database, ignoreTables: set<string>, onlyTables: set<string>)
    ensures var filter := TableFilter(ignoreTables, onlyTables);
            CheckSchemaMatch(from, to, ignoreTables, onlyTables) ==
            MatchScoped(SortTables(FilterTables(from.tables, filter)), SortTables(FilterTables(to.tables, filter)))
  {
    var filter := TableFilter(ignoreTables, onlyTables);
    MatchTablesFiltersFirst(SortTables(from.tables), SortTables(to.tables), filter);
    FilterSortCommute(from.tables, filter);
    FilterSortCommute(to.tables, filter);
  }

  lemma FilterDropsOutOfScope(ts: seq<Table>, t: Table, i: nat, filter: TableFilter)
    requires !InScope(t.name, filter) && i <= |ts|
    ensures FilterTables(ts[..i] + [t] + ts[i..], filter) == FilterTables(ts, filter)
  {
    var before, after := ts[..i], ts[i..];
    assert FilterTables(before + [t], filter) == FilterTables(before, filter) by {
      assert FilterTables([t], filter) == [];
      FilterConcat(before, [t], filter);
    }
    FilterConcat(before + [t], after, filter);
    assert before + after == ts;
    FilterConcat(before, after, filter);
  }

  /** Inserting an out-of-scope table anywhere, on either side, never changes
      the outcome: such a table is never compared. */
  lemma OutOfScopeTableNeverCompared(from: Database, to: Database, ignoreTables: set<string>, onlyTables: set<string>,
                                     t: Table, i: nat, j: nat)
    requires !InScope(t.name, TableFilter(ignoreTables, onlyTables))
    requires i <= |from.tables| && j <= |to.tables|
    ensures CheckSchemaMatch(Database(from.tables[..i] + [t] + from.tables[i..]), to, ignoreTables, onlyTables)
            == CheckSchemaMatch(from, to, ignoreTables, onlyTables)
    ensures CheckSchemaMatch(from, Database(to.tables[..j] + [t] + to.tables[j..]), ignoreTables, onlyTables)
            == CheckSchemaMatch(from, to, ignoreTables, onlyTables)
  {
    var filter := TableFilter(ignoreTables, onlyTables);
    FilterDropsOutOfScope(from.tables, t, i, filter);
    FilterDropsOutOfScope(to.tables, t, j, filter);
    CheckSchemaMatchComparesInScopeTables(from, to, ignoreTables, onlyTables);
    CheckSchemaMatchComparesInScopeTables(Database(from.tables[..i] + [t] + from.tables[i..]), to, ignoreTables, onlyTables);
    CheckSchemaMatchComparesInScopeTables(from, Database(to.tables[..j] + [t] + to.tables[j..]), ignoreTables, onlyTables);
  }

  lemma {:induction false} MatchTablesReflexive(ts: seq<Table>, filter: TableFilter)
    ensures MatchTables(ts, ts, filter) == Ok
    decreases |ts|
  {
    var rest := SkipIgnoredTables(ts, filter);
    if |rest| > 0 {
      StrLessIrreflexive(rest[0].name);
      assert CheckTableMatch(rest[0], rest[0]).Ok?;
      MatchTablesReflexive(rest[1..], filter);
    }
  }

  /** A database always matches itself, whatever the filters. */
  lemma CheckSchemaMatchReflexive(d: Database, ignoreTables: set<string>, onlyTables: set<string>)
    ensures CheckSchemaMatch(d, d, ignoreTables, onlyTables) == Ok
  {
    MatchTablesReflexive(SortTables(d.tables), TableFilter(ignoreTables, onlyTables));
  }

  /** Strictly increasing names: sorted, with no name twice. */
  predicate StrictlySorted(ts: seq<Table>)
  {
    forall i, j :: 0 <= i < j < |ts| ==> StrLess(ts[i].name, ts[j].name)
  }

  predicate DistinctNames(ts: seq<Table>)
  {
    forall i, j :: 0 <= i < j < |ts| ==> ts[i].name != ts[j].name
  }

  /** The names after the head of a strictly sorted list are the other names. */
  lemma TailNames(ts: seq<Table>)
    requires StrictlySorted(ts) && |ts| > 0
    ensures forall m :: m in TableNames(ts[1..]) <==> m in TableNames(ts) && m != ts[0].name
    ensures StrictlySorted(ts[1..])
  {
    StrLessIrreflexive(ts[0].name);
    forall m | m in TableNames(ts[1..])
      ensures m in TableNames(ts) && m != ts[0].name
    {
      var i :| 0 <= i < |ts[1..]| && TableNames(ts[1..])[i] == m;
      assert ts[i + 1].name == m;
    }
    forall m | m in TableNames(ts) && m != ts[0].name
      ensures m in TableNames(ts[1..])
    {
      var i :| 0 <= i < |ts| && TableNames(ts)[i] == m;
      assert TableNames(ts[1..])[i - 1] == m;
    }
  }

  /** Every name in a strictly sorted list is its head's name or after it. */
  lemma HeadIsLeast(ts: seq<Table>, m: string)
    requires StrictlySorted(ts) && m in TableNames(ts)
    ensures m == ts[0].name || StrLess(ts[0].name, m)
  {
    var i :| 0 <= i < |ts| && TableNames(ts)[i] == m;
  }

  /** The merge reports the smallest name on which the two strictly sorted
      lists disagree, as Missing when only `from` has it and as Extra when only
      `to` has it, provided every common table with a smaller name matches. */
  lemma {:induction false} ScopedSmallestDisagreement(from: seq<Table>, to: seq<Table>, n: string)
    requires StrictlySorted(from) && StrictlySorted(to)
    requires (n in TableNames(from)) != (n in TableNames(to))
    requires forall m :: StrLess(m, n) ==> (m in TableNames(from) <==> m in TableNames(to))
    requires forall i, j :: 0 <= i < |from| && 0 <= j < |to| && from[i].name == to[j].name && StrLess(from[i].name, n)
               ==> CheckTableMatch(from[i], to[j]).Ok?
    ensures MatchScoped(from, to) == Mismatch(if n in TableNames(from) then MissingTable(n) else ExtraTable(n))
    decreases |from| + |to|
  {
    if |from| == 0 {
      HeadIsLeast(to, n);
      assert TableNames(to)[0] == to[0].name;
    } else if |to| == 0 {
      HeadIsLeast(from, n);
      assert TableNames(from)[0] == from[0].name;
    } else {
      var f0, t0 := from[0].name, to[0].name;
      assert TableNames(from)[0] == f0 && TableNames(to)[0] == t0;
      StrLessConnected(f0, t0);
      StrLessIrreflexive(f0);
      StrLessIrreflexive(t0);
      if n in TableNames(from) {
        HeadIsLeast(from, n);
      } else {
        HeadIsLeast(to, n);
      }
      if StrLess(f0, t0) {
        forall m | m in TableNames(to)
          ensures StrLess(f0, m)
        {
          HeadIsLeast(to, m);
          StrLessTransitive(f0, t0, m);
        }
        StrLessTransitive(f0, t0, n);
      } else if StrLess(t0, f0) {
        forall m | m in TableNames(from)
          ensures StrLess(t0, m)
        {
          HeadIsLeast(from, m);
          StrLessTransitive(t0, f0, m);
        }
        StrLessTransitive(t0, f0, n);
      } else {
        assert f0 == t0;
        assert StrLess(f0, n);
        assert CheckTableMatch(from[0], to[0]).Ok?;
        TailNames(from);
        TailNames(to);
        forall i, j | 0 <= i < |from[1..]| && 0 <= j < |to[1..]| && from[1..][i].name == to[1..][j].name
                      && StrLess(from[1..][i].name, n)
          ensures CheckTableMatch(from[1..][i], to[1..][j]).Ok?
        {
          assert from[1..][i] == from[i + 1] && to[1..][j] == to[j + 1];
        }
        ScopedSmallestDisagreement(from[1..], to[1..], n);
      }
    }
  }

  lemma {:induction false} FilterDistinct(ts: seq<Table>, filter: TableFilter)
    requires DistinctNames(ts)
    ensures DistinctNames(FilterTables(ts, filter))
  {
    if |ts| > 0 {
      FilterDistinct(ts[1..], filter);
      FilterMembers(ts[1..], filter);
      var rest := FilterTables(ts[1..], filter);
      forall j | 0 <= j < |rest|
        ensures rest[j].name != ts[0].name
      {
        assert rest[j] in ts[1..];
      }
    }
  }

  lemma {:induction false} InsertDistinct(t: Table, s: seq<Table>)
    requires DistinctNames(s) && t.name !in TableNames(s)
    ensures DistinctNames(InsertTable(t, s))
  {
    if |s| > 0 && TableLess(s[0], t) {
      assert TableNames(s[1..]) == TableNames(s)[1..];
      InsertDistinct(t, s[1..]);
      var rest := InsertTable(t, s[1..]);
      forall j | 0 <= j < |rest|
        ensures rest[j].name != s[0].name
      {
        assert rest[j] in multiset(rest);
        if rest[j] != t {
          assert rest[j] in s[1..];
        }
        assert TableNames(s)[0] == s[0].name;
      }
    } else if |s| > 0 {
      assert forall j :: 0 <= j < |s| ==> TableNames(s)[j] == s[j].name;
    }
  }

  lemma {:induction false} SortDistinct(ts: seq<Table>)
    requires DistinctNames(ts)
    ensures DistinctNames(SortTables(ts))
  {
    if |ts| > 0 {
      SortDistinct(ts[1..]);
      var rest := SortTables(ts[1..]);
      forall j | 0 <= j < |rest|
        ensures TableNames(rest)[j] != ts[0].name
      {
        assert rest[j] in multiset(rest);
        assert rest[j] in ts[1..];
      }
      InsertDistinct(ts[0], rest);
    }
  }

  lemma StrictlySortedFromDistinct(ts: seq<Table>)
    requires TablesSorted(ts) && DistinctNames(ts)
    ensures StrictlySorted(ts)
  {
    forall i, j | 0 <= i < j < |ts|
      ensures StrLess(ts[i].name, ts[j].name)
    {
      StrLessConnected(ts[i].name, ts[j].name);
    }
  }

  /** A name occurs in a list exactly when some table of the list has it. */
  lemma TableNameMember(ts: seq<Table>, n: string)
    ensures n in TableNames(ts) <==> exists t :: t in ts && t.name == n
  {
    if n in TableNames(ts) {
      var i :| 0 <= i < |ts| && TableNames(ts)[i] == n;
      assert ts[i] in ts;
    }
    if exists t :: t in ts && t.name == n {
      var t :| t in ts && t.name == n;
      var i :| 0 <= i < |ts| && ts[i] == t;
      assert TableNames(ts)[i] == n;
    }
  }

  /** The sorted in-scope list holds exactly the in-scope tables. */
  lemma ScopedMembers(ts: seq<Table>, filter: TableFilter)
    ensures forall t :: t in SortTables(FilterTables(ts, filter)) <==> t in ts && InScope(t.name, filter)
    ensures forall n :: n in TableNames(SortTables(FilterTables(ts, filter))) <==> n in TableNames(ts) && InScope(n, filter)
  {
    var scoped := SortTables(FilterTables(ts, filter));
    assert forall t :: t in scoped <==> t in ts && InScope(t.name, filter) by {
      FilterMembers(ts, filter);
      assert forall t :: t in scoped <==> t in multiset(scoped);
    }
    forall n
      ensures n in TableNames(scoped) <==> n in TableNames(ts) && InScope(n, filter)
    {
      TableNameMember(scoped, n);
      TableNameMember(ts, n);
    }
  }

  /** Take the smallest in-scope name on which the two databases disagree,
      with every common table of a smaller name matching: that name is
      reported, as Missing when only `from` has it and as Extra when only
      `to` has it. Table names are unique within each database. */
  lemma SmallestDisagreementReported(from: Database, to: Database, ignoreTables: set<string>, onlyTables: set<string>,
                                     n: string)
    requires DistinctNames(from.tables) && DistinctNames(to.tables)
    requires InScope(n, TableFilter(ignoreTables, onlyTables))
    requires (n in TableNames(from.tables)) != (n in TableNames(to.tables))
    requires forall m :: InScope(m, TableFilter(ignoreTables, onlyTables)) && StrLess(m, n) ==>
               (m in TableNames(from.tables) <==> m in TableNames(to.tables))
    requires forall a, b ::
               (a in from.tables && b in to.tables && a.name == b.name && StrLess(a.name, n)
                && InScope(a.name, TableFilter(ignoreTables, onlyTables))) ==> CheckTableMatch(a, b).Ok?
    ensures CheckSchemaMatch(from, to, ignoreTables, onlyTables) ==
            Mismatch(if n in TableNames(from.tables) then MissingTable(n) else ExtraTable(n))
  {
    var filter := TableFilter(ignoreTables, onlyTables);
    var fromScoped := SortTables(FilterTables(from.tables, filter));
    var toScoped := SortTables(FilterTables(to.tables, filter));
    CheckSchemaMatchComparesInScopeTables(from, to, ignoreTables, onlyTables);
    FilterDistinct(from.tables, filter);
    FilterDistinct(to.tables, filter);
    SortDistinct(FilterTables(from.tables, filter));
    SortDistinct(FilterTables(to.tables, filter));
    StrictlySortedFromDistinct(fromScoped);
    StrictlySortedFromDistinct(toScoped);
    ScopedMembers(from.tables, filter);
    ScopedMembers(to.tables, filter);
    forall i, j | 0 <= i < |fromScoped| && 0 <= j < |toScoped| && fromScoped[i].name == toScoped[j].name
                  && StrLess(fromScoped[i].name, n)
      ensures CheckTableMatch(fromScoped[i], toScoped[j]).Ok?
    {
      assert fromScoped[i] in fromScoped && toScoped[j] in toScoped;
    }
    ScopedSmallestDisagreement(fromScoped, toScoped, n);
  }

  /** Two tables of one database with the same name are the same table. */
  lemma SameNameSameTable(ts: seq<Table>, a: Table, b: Table)
    requires DistinctNames(ts) && a in ts && b in ts && a.name == b.name
    ensures a == b
  {
    var i :| 0 <= i < |ts| && ts[i] == a;
    var j :| 0 <= j < |ts| && ts[j] == b;
    assert i == j;
  }

  /** Adding an in-scope table to the `from` side is reported as that
      table missing; adding it to the `to` side, as that table extra. */
  lemma AddedTableReported(d: Database, t: Table, ignoreTables: set<string>, onlyTables: set<string>)
    requires DistinctNames(d.tables) && t.name !in TableNames(d.tables)
    requires InScope(t.name, TableFilter(ignoreTables, onlyTables))
    ensures CheckSchemaMatch(Database([t] + d.tables), d, ignoreTables, onlyTables) == Mismatch(MissingTable(t.name))
    ensures CheckSchemaMatch(d, Database([t] + d.tables), ignoreTables, onlyTables) == Mismatch(ExtraTable(t.name))
  {
    var ts := d.tables;
    var more := [t] + ts;
    assert TableNames(more) == [t.name] + TableNames(ts);
    assert DistinctNames(more) by {
      forall i, j | 0 <= i < j < |more|
        ensures more[i].name != more[j].name
      {
        if i == 0 {
          assert TableNames(ts)[j - 1] == more[j].name;
        }
      }
    }
    StrLessIrreflexive(t.name);
    forall a, b | a in more && b in ts && a.name == b.name && StrLess(a.name, t.name)
      ensures CheckTableMatch(a, b).Ok? && CheckTableMatch(b, a).Ok?
    {
      assert a in ts;
      SameNameSameTable(ts, a, b);
    }
    SmallestDisagreementReported(Database(more), d, ignoreTables, onlyTables, t.name);
    SmallestDisagreementReported(d, Database(more), ignoreTables, onlyTables, t.name);
  }
}
