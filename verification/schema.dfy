/** The engine-independent schema model: columns, keys, tables and databases,
    with the equalities and orders that src/schema.h defines on them. */
module Schema {
  import opened Lexical

  /** The closed vocabulary of portable column types. */
  datatype ColumnType =
    | Blob | Text | VarChar | FixedChar | Json | Uuid | Bool
    | SignedInt | UnsignedInt | Real | Decimal | Date | Time | DateTime
    | Spatial | Enum | Unknown

  datatype DefaultType = NoDefault | Sequence | DefaultValue | DefaultExpression

  /** The five named column flags, one boolean each. */
  datatype ColumnFlags = ColumnFlags(
    mysqlTimestamp: bool,
    mysqlOnUpdateTimestamp: bool,
    timeZone: bool,
    simpleGeometry: bool,
    identityGeneratedAlways: bool)

  const NoFlags := ColumnFlags(false, false, false, false, false)
  const TimeZoneFlag := NoFlags.(timeZone := true)

  datatype Column = Column(
    name: string,
    nullable: bool,
    columnType: ColumnType,
    size: nat,
    scale: nat,
    defaultType: DefaultType,
    defaultValue: string,
    flags: ColumnFlags,
    typeRestriction: string,
    referenceSystem: string,
    enumerationValues: seq<string>,
    // kept for unclassified native types; carried along but never compared
    dbTypeDef: string,
    // a local filter; never compared
    filterExpression: string)

  /** The column constructor used by the dialect listers: trailing arguments
      default to size 0, scale 0, no flags and empty strings. */
  function MakeColumn(name: string, nullable: bool, defaultType: DefaultType, defaultValue: string,
                      columnType: ColumnType, size: nat, scale: nat, flags: ColumnFlags,
                      typeRestriction: string, referenceSystem: string, dbTypeDef: string): (c: Column)
    ensures c.name == name && c.nullable == nullable && c.columnType == columnType
    ensures c.size == size && c.scale == scale && c.flags == flags
    ensures c.defaultType == defaultType && c.defaultValue == defaultValue
    ensures c.typeRestriction == typeRestriction && c.referenceSystem == referenceSystem
    ensures c.dbTypeDef == dbTypeDef
    ensures c.enumerationValues == [] && c.filterExpression == ""
  {
    Column(name, nullable, columnType, size, scale, defaultType, defaultValue, flags,
           typeRestriction, referenceSystem, [], dbTypeDef, "")
  }

  /** A default-constructed column. */
  function DefaultColumn(): (c: Column)
    ensures c.nullable && c.size == 0 && c.scale == 0
    ensures c.defaultType == NoDefault && c.flags == NoFlags
    ensures !c.flags.timeZone && !c.flags.simpleGeometry
  {
    Column("", true, Unknown, 0, 0, NoDefault, "", NoFlags, "", "", [], "", "")
  }

  /** A column with the two uncompared members blanked. */
  function WithoutLocalFields(c: Column): Column
  {
    c.(dbTypeDef := "", filterExpression := "")
  }

  /** `Column::operator==`: every member except `db_type_def` and
      `filter_expression`. */
  predicate ColumnEq(a: Column, b: Column)
    ensures ColumnEq(a, b) <==> WithoutLocalFields(a) == WithoutLocalFields(b)
  {
    && a.name == b.name
    && a.nullable == b.nullable
    && a.columnType == b.columnType
    && a.size == b.size
    && a.scale == b.scale
    && a.defaultType == b.defaultType
    && a.defaultValue == b.defaultValue
    && a.flags == b.flags
    && a.typeRestriction == b.typeRestriction
    && a.referenceSystem == b.referenceSystem
    && a.enumerationValues == b.enumerationValues
  }

  /** `Column::operator!=`. */
  predicate ColumnNe(a: Column, b: Column)
  {
    !ColumnEq(a, b)
  }

  /** Two columns that differ only in the native type text and the filter
      expression compare equal. */
  lemma ColumnEqIgnoresLocalFields(c: Column, dbTypeDef: string, filterExpression: string)
    ensures ColumnEq(c, c.(dbTypeDef := dbTypeDef, filterExpression := filterExpression))
    ensures !ColumnNe(c, c.(dbTypeDef := dbTypeDef, filterExpression := filterExpression))
  {
  }

  /** Vector equality over columns: same length, pairwise `ColumnEq`. */
  predicate ColumnsEq(a: seq<Column>, b: seq<Column>)
  {
    |a| == |b| && forall i :: 0 <= i < |a| ==> ColumnEq(a[i], b[i])
  }

  function ColumnNames(cs: seq<Column>): (names: seq<string>)
    ensures |names| == |cs|
    ensures forall i :: 0 <= i < |cs| ==> names[i] == cs[i].name
  {
    seq(|cs|, i requires 0 <= i < |cs| => cs[i].name)
  }

  datatype KeyType = UniqueKey | StandardKey | SpatialKey

  /** The enumerator values of `KeyType`, which fix the key sort order. */
  function KeyTypeOrdinal(t: KeyType): nat
  {
    match t
    case UniqueKey => 0
    case StandardKey => 1
    case SpatialKey => 2
  }

  datatype Key = Key(name: string, keyType: KeyType, columns: seq<nat>)
  {
    predicate Unique() { keyType == UniqueKey }
    predicate IsSpatial() { keyType == SpatialKey }
  }

  /** A default-constructed key. */
  function DefaultKey(): (k: Key)
    ensures k.keyType == StandardKey && !k.Unique() && !k.IsSpatial()
    ensures k.columns == []
  {
    Key("", StandardKey, [])
  }

  /** `unique()` and `spatial()` each pick out exactly one key type, so they
      are never both true. */
  lemma KeyFlagsExclusive(k: Key)
    ensures k.Unique() <==> k.keyType == UniqueKey
    ensures k.IsSpatial() <==> k.keyType == SpatialKey
    ensures !(k.Unique() && k.IsSpatial())
  {
  }

  /** `Key::operator<`: by key type first, then by name. */
  predicate KeyLess(a: Key, b: Key)
  {
    if a.keyType != b.keyType then KeyTypeOrdinal(a.keyType) < KeyTypeOrdinal(b.keyType)
    else StrLess(a.name, b.name)
  }

  /** `Key::operator==`: name, key type and the column list, in order. */
  predicate KeyEq(a: Key, b: Key)
    ensures KeyEq(a, b) <==> a == b
  {
    a.name == b.name && a.keyType == b.keyType && a.columns == b.columns
  }

  /** `Key::operator!=`. */
  predicate KeyNe(a: Key, b: Key)
  {
    !KeyEq(a, b)
  }

  /** The key order is a strict weak order: irreflexive and transitive, and
      two keys are unordered exactly when they share key type and name. */
  lemma KeyLessStrictWeakOrder(a: Key, b: Key, c: Key)
    ensures !KeyLess(a, a)
    ensures KeyLess(a, b) && KeyLess(b, c) ==> KeyLess(a, c)
    ensures (!KeyLess(a, b) && !KeyLess(b, a)) <==> (a.keyType == b.keyType && a.name == b.name)
  {
    StrLessIrreflexive(a.name);
    if KeyLess(a, b) && KeyLess(b, c) && a.keyType == b.keyType && b.keyType == c.keyType {
      StrLessTransitive(a.name, b.name, c.name);
    }
    StrLessConnected(a.name, b.name);
    StrLessAsymmetric(a.name, b.name);
  }

  /** "Not after" is transitive for keys, which an insertion sort needs. */
  lemma KeyNotLessTransitive(a: Key, b: Key, c: Key)
    requires !KeyLess(b, a) && !KeyLess(c, b)
    ensures !KeyLess(c, a)
  {
    if a.keyType == b.keyType && b.keyType == c.keyType {
      StrNotLessTransitive(a.name, b.name, c.name);
    }
  }

  datatype PrimaryKeyType = NoAvailableKey | ExplicitPrimaryKey | SuitableUniqueKey

  datatype Table = Table(
    name: string,
    columns: seq<Column>,
    primaryKeyColumns: seq<nat>,
    primaryKeyType: PrimaryKeyType,
    keys: seq<Key>,
    // a local filter; never compared
    whereConditions: string)

  /** `Table(name)`: no columns, no keys, and no primary key available. */
  function NewTable(name: string): (t: Table)
    ensures t.name == name && t.primaryKeyType == NoAvailableKey
    ensures t.columns == [] && t.primaryKeyColumns == [] && t.keys == []
  {
    Table(name, [], [], NoAvailableKey, [], "")
  }

  /** `Table::operator<`: by name only. */
  predicate TableLess(a: Table, b: Table)
  {
    StrLess(a.name, b.name)
  }

  /** The primary-key columns that count for equality: all of them for an
      explicit primary key, none for a surrogate or missing one. */
  function CountedPrimaryKey(t: Table): seq<nat>
  {
    if t.primaryKeyType == ExplicitPrimaryKey then t.primaryKeyColumns else []
  }

  function ExplicitColumnCount(t: Table): (n: nat)
    ensures n <= |t.primaryKeyColumns|
  {
    if t.primaryKeyType == ExplicitPrimaryKey then |t.primaryKeyColumns| else 0
  }

  /** `Table::same_primary_key_as`: equal explicit column counts, then the
      first that many indices equal. */
  predicate SamePrimaryKeyAs(a: Table, b: Table)
    ensures SamePrimaryKeyAs(a, b) <==> CountedPrimaryKey(a) == CountedPrimaryKey(b)
  {
    var n := ExplicitColumnCount(a);
    n == ExplicitColumnCount(b) && a.primaryKeyColumns[..n] == b.primaryKeyColumns[..n]
  }

  /** Whatever their column lists hold, two tables whose primary keys are
      not explicit have the same primary key; an explicit key only agrees
      with another explicit key on the same index list, or with a
      non-explicit one when it has no columns. The relation is symmetric. */
  lemma SamePrimaryKeyCases(a: Table, b: Table)
    ensures a.primaryKeyType != ExplicitPrimaryKey && b.primaryKeyType != ExplicitPrimaryKey
            ==> SamePrimaryKeyAs(a, b)
    ensures a.primaryKeyType == ExplicitPrimaryKey && b.primaryKeyType == ExplicitPrimaryKey
            ==> (SamePrimaryKeyAs(a, b) <==> a.primaryKeyColumns == b.primaryKeyColumns)
    ensures a.primaryKeyType == ExplicitPrimaryKey && b.primaryKeyType != ExplicitPrimaryKey
            ==> (SamePrimaryKeyAs(a, b) <==> a.primaryKeyColumns == [])
    ensures SamePrimaryKeyAs(a, b) <==> SamePrimaryKeyAs(b, a)
  {
  }

  function ColumnsWithoutLocalFields(cs: seq<Column>): (r: seq<Column>)
    ensures |r| == |cs|
    ensures forall i :: 0 <= i < |cs| ==> r[i] == WithoutLocalFields(cs[i])
  {
    seq(|cs|, i requires 0 <= i < |cs| => WithoutLocalFields(cs[i]))
  }

  /** Column-vector equality is equality once the uncompared members are
      blanked. */
  lemma ColumnsEqNormalised(a: seq<Column>, b: seq<Column>)
    ensures ColumnsEq(a, b) <==> ColumnsWithoutLocalFields(a) == ColumnsWithoutLocalFields(b)
  {
    var na, nb := ColumnsWithoutLocalFields(a), ColumnsWithoutLocalFields(b);
    if na == nb {
      assert forall i :: 0 <= i < |a| ==> na[i] == nb[i];
    }
  }

  /** A table with the uncompared parts normalised away. */
  function Comparable(t: Table): Table
  {
    Table(t.name, ColumnsWithoutLocalFields(t.columns), CountedPrimaryKey(t), NoAvailableKey, t.keys, "")
  }

  /** `Table::operator==`: name, columns, primary key in the
      `same_primary_key_as` sense, and keys; `where_conditions` is ignored. */
  predicate TableEq(a: Table, b: Table)
    ensures TableEq(a, b) <==> Comparable(a) == Comparable(b)
  {
    ColumnsEqNormalised(a.columns, b.columns);
    a.name == b.name && ColumnsEq(a.columns, b.columns) && SamePrimaryKeyAs(a, b) && a.keys == b.keys
  }

  /** `Table::operator!=`. */
  predicate TableNe(a: Table, b: Table)
  {
    !TableEq(a, b)
  }

  /** Table equality is an equivalence relation that ignores
      `where_conditions`. */
  lemma TableEqEquivalence(a: Table, b: Table, c: Table, where: string)
    ensures TableEq(a, a)
    ensures TableEq(a, b) ==> TableEq(b, a)
    ensures TableEq(a, b) && TableEq(b, c) ==> TableEq(a, c)
    ensures TableEq(a.(whereConditions := where), b) <==> TableEq(a, b)
  {
    assert Comparable(a.(whereConditions := where)) == Comparable(a);
  }

  /** `!=` is the negation of `==` for columns, keys and tables. */
  lemma InequalityIsNegation(c1: Column, c2: Column, k1: Key, k2: Key, t1: Table, t2: Table)
    ensures ColumnNe(c1, c2) <==> !ColumnEq(c1, c2)
    ensures KeyNe(k1, k2) <==> !KeyEq(k1, k2)
    ensures TableNe(t1, t2) <==> !TableEq(t1, t2)
  {
  }

  datatype Database = Database(tables: seq<Table>)

  function TableNames(ts: seq<Table>): (names: seq<string>)
    ensures |names| == |ts|
    ensures forall i :: 0 <= i < |ts| ==> names[i] == ts[i].name
  {
    seq(|ts|, i requires 0 <= i < |ts| => ts[i].name)
  }
}
