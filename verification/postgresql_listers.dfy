/** The schema listers of the PostgreSQL endpoint in src/ks_postgresql.cpp:
    `PostgreSQLColumnLister`, which turns one `pg_attribute` row into a
    portable column (classifying its default text and its `format_type`
    text), with its helpers `unescape_string_value` and
    `extract_spatial_type_restriction_and_reference_system`; and
    `PostgreSQLKeyLister`, which groups index rows into keys. The catalog
    queries themselves are not modelled: the rows are inputs. */
module PostgreSQLListers {
  import opened Schema

  // ---------------------------------------------------------------------
  // std::string operations as the listers use them

  const SizeTModulus: int := 0x1_0000_0000_0000_0000

  /** A signed quantity stored into a 64-bit `size_t`, wrapping as C++ does. */
  function SizeT(x: int): (r: nat)
    ensures r < SizeTModulus
    ensures 0 <= x < SizeTModulus ==> r == x
    ensures x == -1 ==> r == SizeTModulus - 1
  {
    x % SizeTModulus
  }

  /** `s.substr(pos, count)`: up to `count` characters starting at `pos`.
      A `pos` past the end throws in C++; callers never pass one. */
  function Substr(s: string, pos: nat, count: nat): (r: string)
    requires pos <= |s|
    ensures |r| == if count <= |s| - pos then count else |s| - pos
    ensures r == s[pos..pos + |r|]
  {
    if count <= |s| - pos then s[pos..pos + count] else s[pos..]
  }

  /** `s.rfind(c)`: the last position holding `c`, or -1 when there is none. */
  function LastIndexOf(s: string, c: char): (i: int)
    ensures -1 <= i < |s|
    ensures i >= 0 ==> s[i] == c
    ensures forall j :: i < j < |s| ==> s[j] != c
  {
    if |s| == 0 then -1
    else if s[|s| - 1] == c then |s| - 1
    else LastIndexOf(s[..|s| - 1], c)
  }

  /** `s.find(c)`: the first position holding `c`, or -1 when there is none. */
  function FirstIndexOf(s: string, c: char): (i: int)
    ensures -1 <= i < |s|
    ensures i >= 0 ==> s[i] == c
    ensures forall j :: 0 <= j < |s| && (i < 0 || j < i) ==> s[j] != c
  {
    if |s| == 0 then -1
    else if s[0] == c then 0
    else
      var rest := FirstIndexOf(s[1..], c);
      if rest < 0 then -1 else rest + 1
  }

  /** `find_first_not_of("0123456789.") != npos`. */
  predicate HasNonNumericChar(s: string)
  {
    exists i :: 0 <= i < |s| && s[i] !in "0123456789."
  }

  /** `tolower` in the C locale: only ASCII capitals change. */
  function ToLowerAscii(c: char): (r: char)
    ensures 'A' <= c <= 'Z' ==> 'a' <= r <= 'z'
    ensures !('A' <= c <= 'Z') ==> r == c
  {
    if 'A' <= c <= 'Z' then (c as int + 32) as char else c
  }

  function ToLower(s: string): (r: string)
    ensures |r| == |s| && forall i :: 0 <= i < |s| ==> r[i] == ToLowerAscii(s[i])
  {
    seq(|s|, i requires 0 <= i < |s| => ToLowerAscii(s[i]))
  }

  // ---------------------------------------------------------------------
  // unescape_string_value

  predicate IsEscapeChar(c: char)
  {
    c == '\\' || c == '\''
  }

  /** What `unescape_string_value` returns: each backslash or single quote
      is dropped and the character after it kept as it stands. An escape
      character at the very end reads the string's terminating NUL. */
  function Unescape(s: string): (r: string)
    ensures |r| <= |s|
    ensures (forall i :: 0 <= i < |s| ==> !IsEscapeChar(s[i])) ==> r == s
    decreases |s|
  {
    if |s| == 0 then ""
    else if IsEscapeChar(s[0]) then
      if |s| == 1 then "\0" else [s[1]] + Unescape(s[2..])
    else
      [s[0]] + Unescape(s[1..])
  }

  /** `Unescape` of the text from position `n` on, empty past the end. */
  function UnescapeFrom(s: string, n: nat): string
  {
    if n >= |s| then "" else Unescape(s[n..])
  }

  lemma UnescapeFromStep(s: string, n: nat)
    requires n < |s|
    ensures UnescapeFrom(s, n) ==
            if IsEscapeChar(s[n]) then
              if n + 1 < |s| then [s[n + 1]] + UnescapeFrom(s, n + 2) else "\0"
            else [s[n]] + UnescapeFrom(s, n + 1)
  {
    var rest := s[n..];
    assert rest[1..] == s[n + 1..];
    if n + 1 < |s| {
      assert rest[2..] == s[n + 2..];
    }
  }

  /** One turn of the unescaping loop reads the character `c` at `k` (one
      past an escape character, or the NUL after a trailing one) and goes on
      after it. */
  lemma UnescapeFromRead(s: string, n: nat, k: nat, c: char)
    requires n < |s| && k == (if IsEscapeChar(s[n]) then n + 1 else n)
    requires c == (if k < |s| then s[k] else '\0')
    ensures UnescapeFrom(s, n) == [c] + UnescapeFrom(s, k + 1)
  {
    UnescapeFromStep(s, n);
    if IsEscapeChar(s[n]) && n + 1 >= |s| {
      assert UnescapeFrom(s, k + 1) == "";
    }
  }

  /** One turn of the unescaping loop keeps the loop invariant: the output
      so far followed by the unescaping of the rest is the whole unescaping. */
  lemma UnescapeLoopStep(s: string, n: nat, k: nat, c: char, result: string)
    requires n < |s| && k == (if IsEscapeChar(s[n]) then n + 1 else n)
    requires c == (if k < |s| then s[k] else '\0')
    requires result + UnescapeFrom(s, n) == Unescape(s)
    ensures (result + [c]) + UnescapeFrom(s, k + 1) == Unescape(s)
  {
    UnescapeFromRead(s, n, k, c);
    AppendOneMore(result, c, UnescapeFrom(s, k + 1), UnescapeFrom(s, n), Unescape(s));
  }

  /** Moving one character from the front of the rest to the end of the
      output keeps their concatenation. */
  lemma AppendOneMore(done: string, c: char, rest: string, todo: string, whole: string)
    requires todo == [c] + rest && done + todo == whole
    ensures (done + [c]) + rest == whole
  {
    assert (done + [c]) + rest == done + ([c] + rest);
  }

  /** `unescape_string_value`, as the source's index loop. */
  method UnescapeStringValue(escaped: string) returns (result: string)
    ensures result == Unescape(escaped)
    ensures |result| <= |escaped|
  {
    result := "";
    var n := 0;
    assert escaped[0..] == escaped;
    while n < |escaped|
      invariant 0 <= n <= |escaped| + 1
      invariant result + UnescapeFrom(escaped, n) == Unescape(escaped)
      decreases |escaped| + 1 - n
    {
      var k := n;
      if IsEscapeChar(escaped[k]) {
        k := k + 1;
      }
      // reading one past the end yields the terminating NUL
      var c := if k < |escaped| then escaped[k] else '\0';
      UnescapeLoopStep(escaped, n, k, c, result);
      result := result + [c];
      n := k + 1;
    }
    assert UnescapeFrom(escaped, n) == "";
  }

  /** Every backslash and single quote written twice: the escaping that
      `unescape_string_value` undoes. */
  function DoubleEscapeChars(s: string): (r: string)
    ensures |s| <= |r| <= 2 * |s|
  {
    if |s| == 0 then ""
    else if IsEscapeChar(s[0]) then [s[0], s[0]] + DoubleEscapeChars(s[1..])
    else [s[0]] + DoubleEscapeChars(s[1..])
  }

  lemma {:induction false} UnescapeUndoesDoubling(s: string)
    ensures Unescape(DoubleEscapeChars(s)) == s
  {
    if |s| > 0 {
      UnescapeUndoesDoubling(s[1..]);
      var d := DoubleEscapeChars(s);
      if IsEscapeChar(s[0]) {
        assert d[2..] == DoubleEscapeChars(s[1..]);
      } else {
        assert d[1..] == DoubleEscapeChars(s[1..]);
      }
      assert s == [s[0]] + s[1..];
    }
  }

  // ---------------------------------------------------------------------
  // extract_spatial_type_restriction_and_reference_system

  /** A spatial restriction and reference system read from the text between
      `geometry(` and the closing bracket. */
  datatype SpatialType = SpatialType(typeRestriction: string, referenceSystem: string)

  /** Lowercase the text, split it at the first comma, and clear a
      restriction of `geometry` only when a reference system followed it. */
  function ExtractSpatial(text: string): (r: SpatialType)
    ensures ',' !in r.typeRestriction
    ensures ',' !in text ==> r == SpatialType(ToLower(text), "")
    ensures ',' in text ==> r.typeRestriction != "geometry"
    ensures ',' in text ==>
              || ToLower(text) == r.typeRestriction + "," + r.referenceSystem
              || (r.typeRestriction == "" && ToLower(text) == "geometry," + r.referenceSystem)
  {
    var lower := ToLower(text);
    var comma := FirstIndexOf(lower, ',');
    if comma < 0 then
      assert forall i :: 0 <= i < |text| ==> text[i] != ',';
      SpatialType(lower, "")
    else
      assert lower == lower[..comma] + "," + lower[comma + 1..];
      assert ',' !in lower[..comma];
      var restriction := lower[..comma];
      SpatialType(if restriction == "geometry" then "" else restriction, lower[comma + 1..])
  }

  // ---------------------------------------------------------------------
  // PostgreSQLColumnLister

  /** One row of the column query: `attname`, `format_type(...)`,
      `attnotnull`, `atthasdef` and `pg_get_expr(adbin, adrelid)`. */
  datatype AttributeRow = AttributeRow(name: string, dbType: string, notNull: string, hasDefault: string, defaultText: string)

  datatype ColumnDefault = ColumnDefault(defaultType: DefaultType, value: string)

  /** The name inside each quoted call: `substr(1, length() - 4)` drops the
      quotes and the brackets. */
  lemma QuotedCallInner(text: string)
    requires text == "\"current_schema\"()" || text == "\"current_user\"()" || text == "\"session_user\"()"
    ensures text == "\"current_schema\"()" ==> text[1..|text| - 3] == "current_schema"
    ensures text == "\"current_user\"()" ==> text[1..|text| - 3] == "current_user"
    ensures text == "\"session_user\"()" ==> text[1..|text| - 3] == "session_user"
  {
    if text == "\"current_schema\"()" {
      assert text == "\"" + "current_schema" + "\"()";
    } else if text == "\"current_user\"()" {
      assert text == "\"" + "current_user" + "\"()";
    } else {
      assert text == "\"" + "session_user" + "\"()";
    }
  }

  /** PostgreSQL's spellings of the SQL zero-argument functions, turned back
      into the portable names. */
  function PortableExpression(text: string): (r: string)
    ensures text == "now()" ==> r == "CURRENT_TIMESTAMP"
    ensures text == "('now'::text)::date" ==> r == "CURRENT_DATE"
    ensures text == "\"current_schema\"()" ==> r == "current_schema"
    ensures text == "\"current_user\"()" ==> r == "current_user"
    ensures text == "\"session_user\"()" ==> r == "session_user"
    ensures && text != "now()" && text != "('now'::text)::date"
            && text != "\"current_schema\"()" && text != "\"current_user\"()" && text != "\"session_user\"()"
            ==> r == text
  {
    if text == "now()" then "CURRENT_TIMESTAMP"
    else if text == "('now'::text)::date" then "CURRENT_DATE"
    else if text == "\"current_schema\"()" || text == "\"current_user\"()" || text == "\"session_user\"()" then
      QuotedCallInner(text);
      text[1..|text| - 3]
    else text
  }

  /** The default of a column, from `atthasdef` and the expression text:
      a `nextval('…'::regclass)` call is a sequence; `NULL::` cast to the
      column's own type is the expression NULL; a quoted literal is the
      unescaped text up to the last quote; any other text that is not a
      number or a boolean is an expression; the rest is a plain value. */
  function ClassifyDefault(dbType: string, hasDefault: string, text: string): (r: ColumnDefault)
    ensures r.defaultType == NoDefault <==> hasDefault != "t"
    ensures r.defaultType == NoDefault || r.defaultType == Sequence ==> r.value == ""
    ensures r.defaultType == DefaultValue ==> |r.value| <= |text|
  {
    if hasDefault != "t" then ColumnDefault(NoDefault, "")
    else if |text| > 20 && Substr(text, 0, 9) == "nextval('" && Substr(text, |text| - 12, 12) == "'::regclass)" then
      ColumnDefault(Sequence, "")
    else if Substr(text, 0, 6) == "NULL::" && Substr(dbType, 0, SizeT(|text| - 6)) == text[6..] then
      ColumnDefault(DefaultExpression, "NULL")
    else if |text| > 2 && text[0] == '\'' then
      var inner := Substr(text, 1, SizeT(LastIndexOf(text, '\'') - 1));
      ColumnDefault(DefaultValue, Unescape(inner))
    else if |text| > 0 && text != "false" && text != "true" && HasNonNumericChar(text) then
      ColumnDefault(DefaultExpression, PortableExpression(text))
    else
      ColumnDefault(DefaultValue, text)
  }

  /** The type part of a listed column. */
  datatype ListedType = ListedType(
    columnType: ColumnType, size: nat, scale: nat, flags: ColumnFlags,
    typeRestriction: string, referenceSystem: string, dbTypeDef: string)

  /** The type of a column from its `format_type` text, tested in the
      source's order with its `substr(0, n) == literal` comparisons. The
      length and scale parsers for `numeric(p,s)`, `character varying(n)`
      and `character(n)` are parameters. Unrecognised text gives UNKNOWN,
      carrying the text. */
  function ClassifyType(dbType: string, extractLength: string -> nat, extractScale: string -> nat): (r: ListedType)
    ensures r.columnType in {Bool, SignedInt, Real, Decimal, VarChar, FixedChar, Text, Blob, Uuid, Date, Time, DateTime, Spatial, Unknown}
    ensures r.columnType == SignedInt ==> r.size in {2, 4, 8}
    ensures r.columnType == Real ==> r.size in {4, 8}
    ensures r.flags == NoFlags || (r.flags == TimeZoneFlag && r.columnType in {Time, DateTime})
    ensures r.dbTypeDef == (if r.columnType == Unknown then dbType else "")
    ensures r.columnType != Spatial ==> r.typeRestriction == "" && r.referenceSystem == ""
    ensures r.columnType != Decimal ==> r.scale == 0
  {
    if dbType == "boolean" then ListedType(Bool, 0, 0, NoFlags, "", "", "")
    else if dbType == "smallint" then ListedType(SignedInt, 2, 0, NoFlags, "", "", "")
    else if dbType == "integer" then ListedType(SignedInt, 4, 0, NoFlags, "", "", "")
    else if dbType == "bigint" then ListedType(SignedInt, 8, 0, NoFlags, "", "", "")
    else if dbType == "real" then ListedType(Real, 4, 0, NoFlags, "", "", "")
    else if dbType == "double precision" then ListedType(Real, 8, 0, NoFlags, "", "", "")
    else if Substr(dbType, 0, 8) == "numeric(" then
      ListedType(Decimal, extractLength(dbType), extractScale(dbType), NoFlags, "", "", "")
    else if Substr(dbType, 0, 7) == "numeric" then ListedType(Decimal, 0, 0, NoFlags, "", "", "")
    else if Substr(dbType, 0, 18) == "character varying(" then
      ListedType(VarChar, extractLength(dbType), 0, NoFlags, "", "", "")
    else if Substr(dbType, 0, 18) == "character varying" then ListedType(VarChar, 0, 0, NoFlags, "", "", "")
    else if Substr(dbType, 0, 10) == "character(" then
      ListedType(FixedChar, extractLength(dbType), 0, NoFlags, "", "", "")
    else if dbType == "text" then ListedType(Text, 0, 0, NoFlags, "", "", "")
    else if dbType == "bytea" then ListedType(Blob, 0, 0, NoFlags, "", "", "")
    else if dbType == "uuid" then ListedType(Uuid, 0, 0, NoFlags, "", "", "")
    else if dbType == "date" then ListedType(Date, 0, 0, NoFlags, "", "", "")
    else if dbType == "time without time zone" then ListedType(Time, 0, 0, NoFlags, "", "", "")
    else if dbType == "time with time zone" then ListedType(Time, 0, 0, TimeZoneFlag, "", "", "")
    else if dbType == "timestamp without time zone" then ListedType(DateTime, 0, 0, NoFlags, "", "", "")
    else if dbType == "timestamp with time zone" then ListedType(DateTime, 0, 0, TimeZoneFlag, "", "", "")
    else if dbType == "geometry" then ListedType(Spatial, 0, 0, NoFlags, "", "", "")
    else if Substr(dbType, 0, 9) == "geometry(" then
      // the length minus 10 wraps to npos for the bare "geometry(" text
      var spatial := ExtractSpatial(Substr(dbType, 9, SizeT(|dbType| - 10)));
      ListedType(Spatial, 0, 0, NoFlags, spatial.typeRestriction, spatial.referenceSystem, "")
    else
      ListedType(Unknown, 0, 0, NoFlags, "", "", dbType)
  }

  /** `PostgreSQLColumnLister::operator()`: the column one attribute row
      describes. */
  function ColumnFromRow(row: AttributeRow, extractLength: string -> nat, extractScale: string -> nat): (c: Column)
    ensures c.name == row.name
    ensures c.nullable <==> row.notNull == "f"
    ensures ColumnDefault(c.defaultType, c.defaultValue) == ClassifyDefault(row.dbType, row.hasDefault, row.defaultText)
    ensures var t := ClassifyType(row.dbType, extractLength, extractScale);
            && c.columnType == t.columnType && c.size == t.size && c.scale == t.scale && c.flags == t.flags
            && c.typeRestriction == t.typeRestriction && c.referenceSystem == t.referenceSystem
            && c.dbTypeDef == t.dbTypeDef
    ensures c.enumerationValues == [] && c.filterExpression == ""
  {
    var d := ClassifyDefault(row.dbType, row.hasDefault, row.defaultText);
    var t := ClassifyType(row.dbType, extractLength, extractScale);
    MakeColumn(row.name, row.notNull == "f", d.defaultType, d.value, t.columnType, t.size, t.scale, t.flags,
               t.typeRestriction, t.referenceSystem, t.dbTypeDef)
  }

  /** The column lister run over the rows of one table, in attribute order. */
  function ListColumns(rows: seq<AttributeRow>, extractLength: string -> nat, extractScale: string -> nat): (cs: seq<Column>)
    ensures |cs| == |rows|
    ensures forall i :: 0 <= i < |rows| ==> cs[i] == ColumnFromRow(rows[i], extractLength, extractScale)
  {
    seq(|rows|, i requires 0 <= i < |rows| => ColumnFromRow(rows[i], extractLength, extractScale))
  }

  // ---------------------------------------------------------------------
  // PostgreSQLKeyLister

  /** One row of the index query: `indexname`, `indisunique` and the
      position of the indexed column in the table (what `index_of_column`
      finds for `attname`). Rows come ordered by index name, then by
      position within the index. */
  datatype IndexRow = IndexRow(keyName: string, uniqueText: string, columnIndex: nat)

  /** `Key(key_name, unique)` passes a boolean where a key type is
      expected; it stands for a unique key when true and a standard one
      otherwise. */
  function KeyTypeOfRow(row: IndexRow): (t: KeyType)
    ensures t != SpatialKey
    ensures t == UniqueKey <==> row.uniqueText == "t"
  {
    if row.uniqueText == "t" then UniqueKey else StandardKey
  }

  /** All the column indices of a key list, in order. */
  function Flatten(keys: seq<Key>): seq<nat>
  {
    if |keys| == 0 then [] else Flatten(keys[..|keys| - 1]) + keys[|keys| - 1].columns
  }

  function RowColumns(rows: seq<IndexRow>): (r: seq<nat>)
    ensures |r| == |rows| && forall i :: 0 <= i < |rows| ==> r[i] == rows[i].columnIndex
  {
    seq(|rows|, i requires 0 <= i < |rows| => rows[i].columnIndex)
  }

  /** `PostgreSQLKeyLister::operator()`: a row whose index name differs
      from the last key's opens a new key; otherwise its column joins the
      last key. */
  function AddKeyRow(keys: seq<Key>, row: IndexRow): (r: seq<Key>)
    ensures |r| > 0 && r[|r| - 1].name == row.keyName
    ensures Flatten(r) == Flatten(keys) + [row.columnIndex]
    ensures |keys| == 0 || keys[|keys| - 1].name != row.keyName ==>
              r == keys + [Key(row.keyName, KeyTypeOfRow(row), [row.columnIndex])]
    ensures |keys| > 0 && keys[|keys| - 1].name == row.keyName ==>
              && |r| == |keys| && r[..|keys| - 1] == keys[..|keys| - 1]
              && r[|keys| - 1] == keys[|keys| - 1].(columns := keys[|keys| - 1].columns + [row.columnIndex])
  {
    if |keys| == 0 || keys[|keys| - 1].name != row.keyName then
      var r := keys + [Key(row.keyName, KeyTypeOfRow(row), [row.columnIndex])];
      assert r[..|r| - 1] == keys;
      r
    else
      var last := keys[|keys| - 1];
      var r := keys[..|keys| - 1] + [last.(columns := last.columns + [row.columnIndex])];
      assert r[..|r| - 1] == keys[..|keys| - 1];
      assert keys == keys[..|keys| - 1] + [last];
      assert Flatten(keys) == Flatten(keys[..|keys| - 1]) + last.columns;
      r
  }

  /** The positions at which a new index name begins in the rows. */
  function RunStarts(rows: seq<IndexRow>): (starts: seq<nat>)
    ensures forall i :: 0 <= i < |starts| ==> starts[i] < |rows|
    ensures forall i :: 0 <= i < |starts| - 1 ==> starts[i] < starts[i + 1]
    ensures |rows| > 0 ==> |starts| > 0 && starts[0] == 0
    decreases |rows|
  {
    if |rows| == 0 then []
    else
      var n := |rows| - 1;
      RunStarts(rows[..n]) + (if n == 0 || rows[n].keyName != rows[n - 1].keyName then [n] else [])
  }

  /** Where run `i` ends: at the next run's start, or at the end of the rows. */
  function RunEnd(rows: seq<IndexRow>, i: nat): (e: nat)
    requires i < |RunStarts(rows)|
    ensures RunStarts(rows)[i] < e <= |rows|
  {
    var starts := RunStarts(rows);
    if i + 1 < |starts| then starts[i + 1] else |rows|
  }

  /** The key run `i` of the rows stands for: its first row's name and
      unique flag, with the column of every row of the run. */
  function KeyOfRun(rows: seq<IndexRow>, i: nat): Key
    requires i < |RunStarts(rows)|
  {
    var s := RunStarts(rows)[i];
    Key(rows[s].keyName, KeyTypeOfRow(rows[s]), RowColumns(rows[s..RunEnd(rows, i)]))
  }

  /** Key `i` is the key of run `i`, for every run of the rows. */
  predicate KeysFollowRuns(rows: seq<IndexRow>, keys: seq<Key>)
  {
    && |keys| == |RunStarts(rows)|
    && (forall i :: 0 <= i < |keys| ==> keys[i] == KeyOfRun(rows, i))
  }

  /** The shape facts the listing keeps: the keys' columns are the rows'
      columns in order, the last key carries the last row's name, no key is
      empty or spatial, and neighbouring keys have different names. */
  predicate KeysShaped(rows: seq<IndexRow>, keys: seq<Key>)
  {
    && Flatten(keys) == RowColumns(rows)
    && (|rows| > 0 ==> |keys| > 0 && keys[|keys| - 1].name == rows[|rows| - 1].keyName)
    && (forall i :: 0 <= i < |keys| ==> |keys[i].columns| > 0 && !keys[i].IsSpatial())
    && (forall i :: 0 <= i < |keys| - 1 ==> keys[i].name != keys[i + 1].name)
  }

  /** The keys listed so far account for the rows read so far. */
  predicate KeysListed(rows: seq<IndexRow>, keys: seq<Key>)
  {
    KeysFollowRuns(rows, keys) && KeysShaped(rows, keys)
  }

  lemma RunStartsStep(rows: seq<IndexRow>, n: nat)
    requires n < |rows|
    ensures RunStarts(rows[..n + 1]) ==
            RunStarts(rows[..n]) + (if n == 0 || rows[n].keyName != rows[n - 1].keyName then [n] else [])
  {
    assert rows[..n + 1][..n] == rows[..n];
  }

  lemma RowColumnsStep(rows: seq<IndexRow>, s: nat, e: nat)
    requires s <= e < |rows|
    ensures RowColumns(rows[s..e + 1]) == RowColumns(rows[s..e]) + [rows[e].columnIndex]
  {
  }

  /** Appending a row leaves every run that is already closed, and the last
      run when the row opens a new one, standing for the same key. */
  lemma KeyOfRunStable(rows: seq<IndexRow>, n: nat, i: nat)
    requires n < |rows| && i < |RunStarts(rows[..n])|
    requires i + 1 < |RunStarts(rows[..n])| || n == 0 || rows[n].keyName != rows[n - 1].keyName
    ensures i < |RunStarts(rows[..n + 1])| && KeyOfRun(rows[..n + 1], i) == KeyOfRun(rows[..n], i)
  {
    RunStartsStep(rows, n);
    var before, after := rows[..n], rows[..n + 1];
    var s := RunStarts(before)[i];
    var e := RunEnd(before, i);
    assert RunStarts(after)[i] == s;
    assert RunEnd(after, i) == e;
    assert after[s..e] == before[s..e];
  }

  /** A row continuing the last run adds its column to the last run's key. */
  lemma KeyOfRunExtended(rows: seq<IndexRow>, n: nat)
    requires 0 < n < |rows| && rows[n].keyName == rows[n - 1].keyName
    ensures |RunStarts(rows[..n + 1])| == |RunStarts(rows[..n])|
    ensures var i := |RunStarts(rows[..n])| - 1;
            KeyOfRun(rows[..n + 1], i) ==
            KeyOfRun(rows[..n], i).(columns := KeyOfRun(rows[..n], i).columns + [rows[n].columnIndex])
  {
    RunStartsStep(rows, n);
    var before, after := rows[..n], rows[..n + 1];
    var i := |RunStarts(before)| - 1;
    var s := RunStarts(before)[i];
    assert RunEnd(before, i) == n && RunEnd(after, i) == n + 1;
    assert before[s..n] == rows[s..n];
    assert after[s..n + 1] == rows[s..n + 1];
    assert after[s] == before[s];
    RowColumnsStep(rows, s, n);
  }

  /** A row opening a new run adds a one-column key for it. */
  lemma KeyOfRunOpened(rows: seq<IndexRow>, n: nat)
    requires n < |rows| && (n == 0 || rows[n].keyName != rows[n - 1].keyName)
    ensures |RunStarts(rows[..n + 1])| == |RunStarts(rows[..n])| + 1
    ensures KeyOfRun(rows[..n + 1], |RunStarts(rows[..n])|) == Key(rows[n].keyName, KeyTypeOfRow(rows[n]), [rows[n].columnIndex])
  {
    RunStartsStep(rows, n);
    var after := rows[..n + 1];
    var i := |RunStarts(rows[..n])|;
    assert RunStarts(after)[i] == n;
    assert RunEnd(after, i) == n + 1;
    assert after[n..n + 1] == [rows[n]];
  }

  /** A row with a new index name opens the key of a new run. */
  lemma OpenedKeyFollowsRuns(rows: seq<IndexRow>, n: nat, keys: seq<Key>)
    requires n < |rows| && KeysFollowRuns(rows[..n], keys)
    requires n == 0 || rows[n].keyName != rows[n - 1].keyName
    ensures KeysFollowRuns(rows[..n + 1], keys + [Key(rows[n].keyName, KeyTypeOfRow(rows[n]), [rows[n].columnIndex])])
  {
    var next := keys + [Key(rows[n].keyName, KeyTypeOfRow(rows[n]), [rows[n].columnIndex])];
    KeyOfRunOpened(rows, n);
    forall i | 0 <= i < |next|
      ensures next[i] == KeyOfRun(rows[..n + 1], i)
    {
      if i < |keys| {
        KeyOfRunStable(rows, n, i);
      }
    }
  }

  /** A row repeating the last index name extends the last run's key. */
  lemma ExtendedKeyFollowsRuns(rows: seq<IndexRow>, n: nat, keys: seq<Key>)
    requires 0 < n < |rows| && KeysFollowRuns(rows[..n], keys)
    requires rows[n].keyName == rows[n - 1].keyName
    ensures |keys| > 0
    ensures var last := keys[|keys| - 1];
            KeysFollowRuns(rows[..n + 1], keys[..|keys| - 1] + [last.(columns := last.columns + [rows[n].columnIndex])])
  {
    assert |RunStarts(rows[..n])| > 0;
    var last := keys[|keys| - 1];
    var next := keys[..|keys| - 1] + [last.(columns := last.columns + [rows[n].columnIndex])];
    KeyOfRunExtended(rows, n);
    forall i | 0 <= i < |next|
      ensures next[i] == KeyOfRun(rows[..n + 1], i)
    {
      if i < |keys| - 1 {
        KeyOfRunStable(rows, n, i);
      }
    }
  }

  /** One more row keeps the shape facts. */
  lemma AddKeyRowKeepsShape(rows: seq<IndexRow>, n: nat, keys: seq<Key>)
    requires n < |rows| && KeysShaped(rows[..n], keys)
    ensures KeysShaped(rows[..n + 1], AddKeyRow(keys, rows[n]))
  {
    var before, after := rows[..n], rows[..n + 1];
    var row := rows[n];
    var next := AddKeyRow(keys, row);
    assert after[..n] == before && after[n] == row;
    assert RowColumns(after) == RowColumns(before) + [row.columnIndex];
    if |keys| == 0 || keys[|keys| - 1].name != row.keyName {
      forall i | 0 <= i < |next| - 1
        ensures next[i].name != next[i + 1].name
      {
        if i + 1 < |keys| {
          assert next[i] == keys[i] && next[i + 1] == keys[i + 1];
        }
      }
    } else {
      forall i | 0 <= i < |next| - 1
        ensures next[i].name != next[i + 1].name
      {
        assert next[i].name == keys[i].name && next[i + 1].name == keys[i + 1].name;
      }
    }
  }

  /** One more row keeps key `i` the key of run `i`. */
  lemma AddKeyRowFollowsRuns(rows: seq<IndexRow>, n: nat, keys: seq<Key>)
    requires n < |rows| && KeysListed(rows[..n], keys)
    ensures KeysFollowRuns(rows[..n + 1], AddKeyRow(keys, rows[n]))
  {
    assert n > 0 ==> rows[n - 1].keyName == keys[|keys| - 1].name by {
      if n > 0 {
        assert rows[..n][n - 1] == rows[n - 1];
      }
    }
    if |keys| == 0 || keys[|keys| - 1].name != rows[n].keyName {
      OpenedKeyFollowsRuns(rows, n, keys);
    } else {
      ExtendedKeyFollowsRuns(rows, n, keys);
    }
  }

  /** One more row keeps the listed keys in step with the rows. */
  lemma AddKeyRowKeepsListed(rows: seq<IndexRow>, n: nat, keys: seq<Key>)
    requires n < |rows| && KeysListed(rows[..n], keys)
    ensures KeysListed(rows[..n + 1], AddKeyRow(keys, rows[n]))
  {
    AddKeyRowKeepsShape(rows, n, keys);
    AddKeyRowFollowsRuns(rows, n, keys);
  }

  /** The key lister run over all the index rows of a table whose key list
      starts empty: one key per run of equal index names, named and flagged
      by the run's first row, holding the run's columns in order. */
  method ListKeys(rows: seq<IndexRow>) returns (keys: seq<Key>)
    ensures |keys| == |RunStarts(rows)|
    ensures forall i :: 0 <= i < |keys| ==> keys[i] == KeyOfRun(rows, i)
    ensures Flatten(keys) == RowColumns(rows)
    ensures forall i :: 0 <= i < |keys| ==> |keys[i].columns| > 0 && !keys[i].IsSpatial()
    ensures forall i :: 0 <= i < |keys| - 1 ==> keys[i].name != keys[i + 1].name
  {
    keys := [];
    var n := 0;
    while n < |rows|
      invariant 0 <= n <= |rows|
      invariant KeysListed(rows[..n], keys)
    {
      AddKeyRowKeepsListed(rows, n, keys);
      keys := AddKeyRow(keys, rows[n]);
      n := n + 1;
    }
    assert rows[..n] == rows;
    ListedKeysMeaning(rows, keys);
  }

  /** What listing all the rows leaves behind, spelled out. */
  lemma ListedKeysMeaning(rows: seq<IndexRow>, keys: seq<Key>)
    requires KeysListed(rows, keys)
    ensures |keys| == |RunStarts(rows)|
    ensures forall i :: 0 <= i < |keys| ==> keys[i] == KeyOfRun(rows, i)
    ensures Flatten(keys) == RowColumns(rows)
    ensures forall i :: 0 <= i < |keys| ==> |keys[i].columns| > 0 && !keys[i].IsSpatial()
    ensures forall i :: 0 <= i < |keys| - 1 ==> keys[i].name != keys[i + 1].name
  {
  }
}
