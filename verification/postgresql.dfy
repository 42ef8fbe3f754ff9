/** The PostgreSQL endpoint's schema conversion and type naming from
    src/ks_postgresql.cpp: `convert_unsupported_database_schema`, which
    rewrites a received schema into what PostgreSQL can hold, and
    `column_type`, which names a portable column type in PostgreSQL's
    `format_type` vocabulary. */
module PostgreSQL {
  import opened Schema

  /** PostgreSQL's hard-coded limit on identifier (and so index name) length. */
  const MaxKeyNameLength: nat := 63

  // ---------------------------------------------------------------------
  // convert_unsupported_database_schema

  /** A column PostgreSQL can hold as it stands: no unsigned integers, no
      1- or 3-byte integers, and unsized TEXT and BLOB. */
  predicate SupportedColumn(c: Column)
  {
    && c.columnType != UnsignedInt
    && (c.columnType == SignedInt ==> c.size != 1 && c.size != 3)
    && (c.columnType == Text || c.columnType == Blob ==> c.size == 0)
  }

  predicate SupportedTable(t: Table)
  {
    && (forall c :: c in t.columns ==> SupportedColumn(c))
    && (forall k :: k in t.keys ==> |k.name| <= MaxKeyNameLength)
  }

  /** The per-column rewrite: unsigned integers become signed (keeping
      their size), 1- and 3-byte integers widen to 2 and 4 bytes, and TEXT
      and BLOB lose their size. */
  function ConvertColumn(c: Column): (r: Column)
    ensures SupportedColumn(r)
    ensures SupportedColumn(c) ==> r == c
    ensures r.columnType == (if c.columnType == UnsignedInt then SignedInt else c.columnType)
    ensures r.columnType == SignedInt ==> r.size == (if c.size == 1 then 2 else if c.size == 3 then 4 else c.size)
    ensures r.columnType != SignedInt && r.columnType != Text && r.columnType != Blob ==> r.size == c.size
    ensures r == c.(columnType := r.columnType, size := r.size)
  {
    var signed := if c.columnType == UnsignedInt then c.(columnType := SignedInt) else c;
    var widened2 := if signed.columnType == SignedInt && signed.size == 1 then signed.(size := 2) else signed;
    var widened4 := if widened2.columnType == SignedInt && widened2.size == 3 then widened2.(size := 4) else widened2;
    if widened4.columnType == Text || widened4.columnType == Blob then widened4.(size := 0) else widened4
  }

  /** A key name cut to PostgreSQL's limit. */
  function TruncateKeyName(name: string): (r: string)
    ensures |r| == if |name| >= MaxKeyNameLength then MaxKeyNameLength else |name|
    ensures r == name[..|r|]
  {
    if |name| >= MaxKeyNameLength then name[..MaxKeyNameLength] else name
  }

  function ConvertKey(k: Key): (r: Key)
    ensures |r.name| <= MaxKeyNameLength
    ensures |k.name| <= MaxKeyNameLength ==> r == k
    ensures r == k.(name := TruncateKeyName(k.name))
  {
    k.(name := TruncateKeyName(k.name))
  }

  function ConvertTable(t: Table): (r: Table)
    ensures SupportedTable(r)
    ensures SupportedTable(t) ==> r == t
    ensures r.name == t.name && |r.columns| == |t.columns| && |r.keys| == |t.keys|
    ensures ColumnNames(r.columns) == ColumnNames(t.columns)
    ensures r.primaryKeyColumns == t.primaryKeyColumns && r.primaryKeyType == t.primaryKeyType
    ensures forall i :: 0 <= i < |t.keys| ==> r.keys[i].columns == t.keys[i].columns && r.keys[i].keyType == t.keys[i].keyType
    ensures forall i :: 0 <= i < |t.columns| ==> r.columns[i] == ConvertColumn(t.columns[i])
    ensures forall i :: 0 <= i < |t.keys| ==> r.keys[i].name == TruncateKeyName(t.keys[i].name)
  {
    var columns := seq(|t.columns|, i requires 0 <= i < |t.columns| => ConvertColumn(t.columns[i]));
    var keys := seq(|t.keys|, i requires 0 <= i < |t.keys| => ConvertKey(t.keys[i]));
    assert forall c :: c in columns ==> SupportedColumn(c);
    assert SupportedTable(t) ==> columns == t.columns && keys == t.keys;
    t.(columns := columns, keys := keys)
  }

  /** A schema the conversion has nothing left to do on. */
  predicate SupportedDatabase(d: Database)
  {
    forall t :: t in d.tables ==> SupportedTable(t)
  }

  /** `convert_unsupported_database_schema`, table by table. */
  function ConvertDatabase(d: Database): (r: Database)
    ensures |r.tables| == |d.tables|
    ensures forall i :: 0 <= i < |d.tables| ==> r.tables[i] == ConvertTable(d.tables[i])
  {
    Database(seq(|d.tables|, i requires 0 <= i < |d.tables| => ConvertTable(d.tables[i])))
  }

  /** The conversion leaves nothing for a second pass to do, and a second
      pass changes nothing: the conversion is idempotent. */
  lemma ConvertDatabaseIdempotent(d: Database)
    ensures SupportedDatabase(ConvertDatabase(d))
    ensures ConvertDatabase(ConvertDatabase(d)) == ConvertDatabase(d)
  {
    var once := ConvertDatabase(d);
    forall t | t in once.tables
      ensures SupportedTable(t) && ConvertTable(t) == t
    {
      var i :| 0 <= i < |once.tables| && once.tables[i] == t;
      assert t == ConvertTable(d.tables[i]);
    }
    assert ConvertDatabase(once).tables == once.tables;
  }

  // ---------------------------------------------------------------------
  // column_type

  /** `std::to_string` on an unsigned size. */
  function DecimalDigits(n: nat): (s: string)
    ensures |s| > 0 && forall i :: 0 <= i < |s| ==> '0' <= s[i] <= '9'
    decreases n
  {
    if n < 10 then [Digit(n)] else DecimalDigits(n / 10) + [Digit(n % 10)]
  }

  function Digit(d: nat): (c: char)
    requires d < 10
    ensures '0' <= c <= '9'
  {
    ['0', '1', '2', '3', '4', '5', '6', '7', '8', '9'][d]
  }

  /** The value of a string of decimal digits. */
  function DecimalValue(s: string): nat
    requires forall i :: 0 <= i < |s| ==> '0' <= s[i] <= '9'
  {
    if |s| == 0 then 0 else 10 * DecimalValue(s[..|s| - 1]) + (s[|s| - 1] as int - '0' as int)
  }

  lemma {:induction false} DecimalDigitsRoundTrip(n: nat)
    ensures DecimalValue(DecimalDigits(n)) == n
    decreases n
  {
    var s := DecimalDigits(n);
    if n >= 10 {
      DecimalDigitsRoundTrip(n / 10);
      assert s[..|s| - 1] == DecimalDigits(n / 10);
    }
  }

  /** Why a column has no PostgreSQL type name. */
  datatype TypeError =
    | UnsupportedIntegerSize(column: string, size: nat)
    | UnsupportedColumnType(column: string, columnType: ColumnType)

  datatype TypeResult = TypeName(text: string) | TypeFailure(error: TypeError)

  /** The portable types `column_type` has a name for. */
  predicate NamedType(t: ColumnType)
  {
    t in {Blob, Text, VarChar, FixedChar, Uuid, Bool, SignedInt, Real, Decimal, Date, Time, DateTime, Spatial}
  }

  /** `column_type`: the PostgreSQL type name of a column, or the error the
      source throws for an integer size PostgreSQL lacks or a type it has
      no name for (JSON, ENUM, unsigned integers and unknown types). */
  function ColumnTypeText(c: Column): (r: TypeResult)
    ensures r.TypeFailure? <==> !NamedType(c.columnType) || (c.columnType == SignedInt && c.size !in {2, 4, 8})
    ensures r.TypeFailure? ==> r.error.column == c.name
    ensures r.TypeName? ==> |r.text| > 0
  {
    match c.columnType
    case Blob => TypeName("bytea")
    case Text => TypeName("text")
    case VarChar =>
      TypeName("character varying" + (if c.size > 0 then "(" + DecimalDigits(c.size) + ")" else ""))
    case FixedChar => TypeName("character(" + DecimalDigits(c.size) + ")")
    case Uuid => TypeName("uuid")
    case Bool => TypeName("boolean")
    case SignedInt =>
      if c.size == 2 then TypeName("smallint")
      else if c.size == 4 then TypeName("integer")
      else if c.size == 8 then TypeName("bigint")
      else TypeFailure(UnsupportedIntegerSize(c.name, c.size))
    case Real => TypeName(if c.size == 4 then "real" else "double precision")
    case Decimal =>
      TypeName(if c.size != 0 then "numeric(" + DecimalDigits(c.size) + "," + DecimalDigits(c.scale) + ")" else "numeric")
    case Date => TypeName("date")
    case Time => TypeName(if c.flags.timeZone then "time with time zone" else "time without time zone")
    case DateTime => TypeName(if c.flags.timeZone then "timestamp with time zone" else "timestamp without time zone")
    case Spatial =>
      TypeName("geometry" +
        if |c.referenceSystem| > 0 then
          "(" + (if |c.typeRestriction| == 0 then "geometry" else c.typeRestriction) + "," + c.referenceSystem + ")"
        else if |c.typeRestriction| > 0 then "(" + c.typeRestriction + ")"
        else "")
    case _ => TypeFailure(UnsupportedColumnType(c.name, c.columnType))
  }

  // ---------------------------------------------------------------------
  // PostgreSQLRes::conversion_for_type

  /** How a result column's values are packed. */
  datatype ColumnConversion = EncodeRaw | EncodeBool | EncodeSint | EncodeBytea | EncodeGeom

  // built-in type OIDs, as pg_type.h assigns them
  const BoolOid: nat := 16
  const ByteaOid: nat := 17
  const CharOid: nat := 18
  const Int8Oid: nat := 20
  const Int2Oid: nat := 21
  const Int4Oid: nat := 23
  const TextOid: nat := 25

  /** The built-in OIDs the conversion recognises by value. */
  predicate BuiltInOid(typid: nat)
  {
    typid in {BoolOid, ByteaOid, CharOid, Int8Oid, Int2Oid, Int4Oid, TextOid}
  }

  /** `conversion_for_type`: booleans, the three integer widths and bytea
      by their fixed OIDs; anything else is geometry when its OID is one of
      those found for the PostGIS `geometry` type, and raw otherwise. */
  function ConversionForType(typid: nat, geometryOids: set<nat>): (r: ColumnConversion)
    ensures r == EncodeGeom <==> !BuiltInOid(typid) && typid in geometryOids
    ensures r == EncodeSint <==> typid in {Int2Oid, Int4Oid, Int8Oid}
    ensures r == EncodeBool <==> typid == BoolOid
    ensures r == EncodeBytea <==> typid == ByteaOid
  {
    if typid == BoolOid then EncodeBool
    else if typid == Int2Oid || typid == Int4Oid || typid == Int8Oid then EncodeSint
    else if typid == ByteaOid then EncodeBytea
    else if typid == CharOid || typid == TextOid then EncodeRaw
    else if typid in geometryOids then EncodeGeom
    else EncodeRaw
  }

  /** The geometry OID set never overrides a built-in OID. */
  lemma BuiltInConversionIgnoresGeometryOids(typid: nat, a: set<nat>, b: set<nat>)
    requires BuiltInOid(typid)
    ensures ConversionForType(typid, a) == ConversionForType(typid, b)
  {
  }
}
