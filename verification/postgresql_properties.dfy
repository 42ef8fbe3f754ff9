/** Properties that tie the PostgreSQL endpoint's type naming to its column
    lister (src/ks_postgresql.cpp): the type a column is created with is
    listed back as the same portable type, and the default texts PostgreSQL
    reports are classified as the portable defaults they came from. */
module PostgreSQLProperties {
  import opened Schema
  import opened PostgreSQL
  import opened PostgreSQLListers

  /** The columns whose PostgreSQL type name is a fixed word and lists back
      unchanged: BOOL, INT of 2, 4 or 8 bytes, REAL of 4 or 8, TEXT, BLOB,
      UUID, DATE, unsized VARCHAR, and TIME or DATETIME with or without the
      time zone, all with default size, scale and flags otherwise. */
  predicate FixedNameColumn(c: Column)
  {
    && c.scale == 0 && c.typeRestriction == "" && c.referenceSystem == ""
    && (|| (c.columnType in {Bool, Text, Blob, Uuid, Date, VarChar} && c.size == 0 && c.flags == NoFlags)
        || (c.columnType == SignedInt && c.size in {2, 4, 8} && c.flags == NoFlags)
        || (c.columnType == Real && c.size in {4, 8} && c.flags == NoFlags)
        || (c.columnType in {Time, DateTime} && c.size == 0 && (c.flags == NoFlags || c.flags == TimeZoneFlag)))
  }

  /** The listed type agrees with the column on every type-related field. */
  predicate SameType(t: ListedType, c: Column)
  {
    && t.columnType == c.columnType && t.size == c.size && t.scale == c.scale && t.flags == c.flags
    && t.typeRestriction == c.typeRestriction && t.referenceSystem == c.referenceSystem && t.dbTypeDef == ""
  }

  /** A text whose first character differs from a literal's does not begin
      with that literal. */
  lemma SubstrDiffersAtHead(s: string, lit: string)
    requires |s| > 0 && |lit| > 0 && s[0] != lit[0]
    ensures Substr(s, 0, |lit|) != lit
  {
    assert Substr(s, 0, |lit|)[0] == s[0];
  }

  /** Text opening with `c`, `n` or `g`, other than `geometry` itself, is
      none of the exact type names the lister tests. */
  lemma NotAnExactTypeName(text: string)
    requires |text| > 0 && text[0] in "cng" && text != "geometry"
    ensures text !in ["boolean", "smallint", "integer", "bigint", "real", "double precision", "text", "bytea",
                      "uuid", "date", "time without time zone", "time with time zone", "timestamp without time zone",
                      "timestamp with time zone", "geometry"]
  {
    assert text != "double precision" by { assert "double precision"[0] == 'd'; }
    assert text != "time without time zone" by { assert "time without time zone"[0] == 't'; }
    assert text != "time with time zone" by { assert "time with time zone"[0] == 't'; }
    assert text != "timestamp without time zone" by { assert "timestamp without time zone"[0] == 't'; }
    assert text != "timestamp with time zone" by { assert "timestamp with time zone"[0] == 't'; }
  }

  /** Text opening with `geometry(` is listed as a spatial type, with the
      restriction and reference system read from between the brackets. */
  lemma GeometryTextClassified(text: string, extractLength: string -> nat, extractScale: string -> nat)
    requires |text| >= 9 && text[..9] == "geometry("
    ensures var spatial := ExtractSpatial(Substr(text, 9, SizeT(|text| - 10)));
            ClassifyType(text, extractLength, extractScale)
            == ListedType(Spatial, 0, 0, NoFlags, spatial.typeRestriction, spatial.referenceSystem, "")
  {
    assert text[0] == 'g';
    SubstrDiffersAtHead(text, "numeric(");
    SubstrDiffersAtHead(text, "numeric");
    SubstrDiffersAtHead(text, "character varying(");
    SubstrDiffersAtHead(text, "character varying");
    SubstrDiffersAtHead(text, "character(");
    NotAnExactTypeName(text);
    assert Substr(text, 0, 9) == "geometry(";
  }

  /** A bracketed geometry type is listed with what lies between the
      brackets (for any text short enough for `size_t` to measure). */
  lemma BracketedGeometryClassified(inner: string, extractLength: string -> nat, extractScale: string -> nat)
    requires |inner| < SizeTModulus
    ensures var spatial := ExtractSpatial(inner);
            ClassifyType("geometry(" + inner + ")", extractLength, extractScale)
            == ListedType(Spatial, 0, 0, NoFlags, spatial.typeRestriction, spatial.referenceSystem, "")
  {
    var text := "geometry(" + inner + ")";
    assert text[..9] == "geometry(";
    GeometryTextClassified(text, extractLength, extractScale);
    assert Substr(text, 9, SizeT(|text| - 10)) == inner;
  }

  /** The bare `geometry` type is a spatial type without restriction. */
  lemma BareGeometryClassified(extractLength: string -> nat, extractScale: string -> nat)
    ensures ClassifyType("geometry", extractLength, extractScale) == ListedType(Spatial, 0, 0, NoFlags, "", "", "")
  {
    var text := "geometry";
    SubstrDiffersAtHead(text, "numeric(");
    SubstrDiffersAtHead(text, "numeric");
    SubstrDiffersAtHead(text, "character varying(");
    SubstrDiffersAtHead(text, "character varying");
    SubstrDiffersAtHead(text, "character(");
  }

  /** Text opening with neither `c`, `n` nor `g` passes none of the
      lister's prefix tests. */
  lemma NoPrefixTypeName(text: string)
    requires |text| > 0 && text[0] !in "cng"
    ensures Substr(text, 0, 8) != "numeric(" && Substr(text, 0, 7) != "numeric"
    ensures Substr(text, 0, 18) != "character varying(" && Substr(text, 0, 18) != "character varying"
    ensures Substr(text, 0, 10) != "character(" && Substr(text, 0, 9) != "geometry("
  {
    SubstrDiffersAtHead(text, "numeric(");
    SubstrDiffersAtHead(text, "numeric");
    SubstrDiffersAtHead(text, "character varying(");
    SubstrDiffersAtHead(text, "character varying");
    SubstrDiffersAtHead(text, "character(");
    SubstrDiffersAtHead(text, "geometry(");
  }

  /** Unsized VARCHAR is named `character varying` and listed back as such. */
  lemma VarCharTypeRoundTrip(c: Column, extractLength: string -> nat, extractScale: string -> nat)
    requires FixedNameColumn(c) && c.columnType == VarChar
    ensures ColumnTypeText(c).TypeName?
    ensures SameType(ClassifyType(ColumnTypeText(c).text, extractLength, extractScale), c)
  {
    var text := ColumnTypeText(c).text;
    assert text == "character varying";
    NotAnExactTypeName(text);
    SubstrDiffersAtHead(text, "numeric(");
    SubstrDiffersAtHead(text, "numeric");
    assert Substr(text, 0, 18) == "character varying";
  }

  /** `boolean` is listed as BOOL. */
  lemma BooleanNameClassified(extractLength: string -> nat, extractScale: string -> nat)
    ensures ClassifyType("boolean", extractLength, extractScale) == ListedType(Bool, 0, 0, NoFlags, "", "", "")
  {
    NoPrefixTypeName("boolean");
  }

  /** `smallint` is listed as a 2-byte INT. */
  lemma SmallintNameClassified(extractLength: string -> nat, extractScale: string -> nat)
    ensures ClassifyType("smallint", extractLength, extractScale) == ListedType(SignedInt, 2, 0, NoFlags, "", "", "")
  {
    NoPrefixTypeName("smallint");
  }

  /** `integer` is listed as a 4-byte INT. */
  lemma IntegerNameClassified(extractLength: string -> nat, extractScale: string -> nat)
    ensures ClassifyType("integer", extractLength, extractScale) == ListedType(SignedInt, 4, 0, NoFlags, "", "", "")
  {
    NoPrefixTypeName("integer");
  }

  /** `bigint` is listed as an 8-byte INT. */
  lemma BigintNameClassified(extractLength: string -> nat, extractScale: string -> nat)
    ensures ClassifyType("bigint", extractLength, extractScale) == ListedType(SignedInt, 8, 0, NoFlags, "", "", "")
  {
    NoPrefixTypeName("bigint");
  }

  /** `real` is listed as a 4-byte REAL. */
  lemma RealNameClassified(extractLength: string -> nat, extractScale: string -> nat)
    ensures ClassifyType("real", extractLength, extractScale) == ListedType(Real, 4, 0, NoFlags, "", "", "")
  {
    NoPrefixTypeName("real");
  }

  /** `double precision` is listed as an 8-byte REAL. */
  lemma DoublePrecisionNameClassified(extractLength: string -> nat, extractScale: string -> nat)
    ensures ClassifyType("double precision", extractLength, extractScale) == ListedType(Real, 8, 0, NoFlags, "", "", "")
  {
    NoPrefixTypeName("double precision");
  }

  /** `text` is listed as TEXT. */
  lemma TextNameClassified(extractLength: string -> nat, extractScale: string -> nat)
    ensures ClassifyType("text", extractLength, extractScale) == ListedType(Text, 0, 0, NoFlags, "", "", "")
  {
    NoPrefixTypeName("text");
  }

  /** `bytea` is listed as BLOB. */
  lemma ByteaNameClassified(extractLength: string -> nat, extractScale: string -> nat)
    ensures ClassifyType("bytea", extractLength, extractScale) == ListedType(Blob, 0, 0, NoFlags, "", "", "")
  {
    NoPrefixTypeName("bytea");
  }

  /** `uuid` is listed as UUID. */
  lemma UuidNameClassified(extractLength: string -> nat, extractScale: string -> nat)
    ensures ClassifyType("uuid", extractLength, extractScale) == ListedType(Uuid, 0, 0, NoFlags, "", "", "")
  {
    NoPrefixTypeName("uuid");
  }

  /** `date` is listed as DATE. */
  lemma DateNameClassified(extractLength: string -> nat, extractScale: string -> nat)
    ensures ClassifyType("date", extractLength, extractScale) == ListedType(Date, 0, 0, NoFlags, "", "", "")
  {
    NoPrefixTypeName("date");
  }

  /** BOOL and the integer and floating-point widths list back unchanged. */
  lemma NumberTypeRoundTrip(c: Column, extractLength: string -> nat, extractScale: string -> nat)
    requires FixedNameColumn(c) && c.columnType in {Bool, SignedInt, Real}
    ensures ColumnTypeText(c).TypeName?
    ensures SameType(ClassifyType(ColumnTypeText(c).text, extractLength, extractScale), c)
  {
    BooleanNameClassified(extractLength, extractScale);
    SmallintNameClassified(extractLength, extractScale);
    IntegerNameClassified(extractLength, extractScale);
    BigintNameClassified(extractLength, extractScale);
    RealNameClassified(extractLength, extractScale);
    DoublePrecisionNameClassified(extractLength, extractScale);
  }

  /** A REAL of any size but 4 is named `double precision`, so it lists back
      as an 8-byte REAL whatever its size was. */
  lemma RealOfOtherSizeListsAsDouble(c: Column, extractLength: string -> nat, extractScale: string -> nat)
    requires c.columnType == Real && c.size != 4
    ensures ColumnTypeText(c).TypeName?
    ensures ClassifyType(ColumnTypeText(c).text, extractLength, extractScale) == ListedType(Real, 8, 0, NoFlags, "", "", "")
  {
    DoublePrecisionNameClassified(extractLength, extractScale);
  }

  /** TEXT, BLOB, UUID and DATE list back unchanged. */
  lemma PlainTypeRoundTrip(c: Column, extractLength: string -> nat, extractScale: string -> nat)
    requires FixedNameColumn(c) && c.columnType in {Text, Blob, Uuid, Date}
    ensures ColumnTypeText(c).TypeName?
    ensures SameType(ClassifyType(ColumnTypeText(c).text, extractLength, extractScale), c)
  {
    TextNameClassified(extractLength, extractScale);
    ByteaNameClassified(extractLength, extractScale);
    UuidNameClassified(extractLength, extractScale);
    DateNameClassified(extractLength, extractScale);
  }

  /** `time without time zone` is listed as TIME without the flag. */
  lemma TimeNameClassified(extractLength: string -> nat, extractScale: string -> nat)
    ensures ClassifyType("time without time zone", extractLength, extractScale) == ListedType(Time, 0, 0, NoFlags, "", "", "")
  {
    NoPrefixTypeName("time without time zone");
  }

  /** `time with time zone` is listed as TIME with the time-zone flag. */
  lemma TimeZoneNameClassified(extractLength: string -> nat, extractScale: string -> nat)
    ensures ClassifyType("time with time zone", extractLength, extractScale) == ListedType(Time, 0, 0, TimeZoneFlag, "", "", "")
  {
    NoPrefixTypeName("time with time zone");
  }

  /** `timestamp without time zone` is listed as DATETIME without the flag. */
  lemma TimestampNameClassified(extractLength: string -> nat, extractScale: string -> nat)
    ensures ClassifyType("timestamp without time zone", extractLength, extractScale) == ListedType(DateTime, 0, 0, NoFlags, "", "", "")
  {
    NoPrefixTypeName("timestamp without time zone");
  }

  /** `timestamp with time zone` is listed as DATETIME with the time-zone flag. */
  lemma TimestampZoneNameClassified(extractLength: string -> nat, extractScale: string -> nat)
    ensures ClassifyType("timestamp with time zone", extractLength, extractScale) == ListedType(DateTime, 0, 0, TimeZoneFlag, "", "", "")
  {
    NoPrefixTypeName("timestamp with time zone");
  }

  /** TIME and DATETIME list back with their time-zone flag. */
  lemma TimeTypeRoundTrip(c: Column, extractLength: string -> nat, extractScale: string -> nat)
    requires FixedNameColumn(c) && c.columnType in {Time, DateTime}
    ensures ColumnTypeText(c).TypeName?
    ensures SameType(ClassifyType(ColumnTypeText(c).text, extractLength, extractScale), c)
  {
    TimeNameClassified(extractLength, extractScale);
    TimeZoneNameClassified(extractLength, extractScale);
    TimestampNameClassified(extractLength, extractScale);
    TimestampZoneNameClassified(extractLength, extractScale);
  }

  /** Naming a fixed-name column's type and listing it back recovers the
      type, its size and the time-zone flag. */
  lemma FixedNameTypeRoundTrip(c: Column, extractLength: string -> nat, extractScale: string -> nat)
    requires FixedNameColumn(c)
    ensures ColumnTypeText(c).TypeName?
    ensures SameType(ClassifyType(ColumnTypeText(c).text, extractLength, extractScale), c)
  {
    if c.columnType == VarChar {
      VarCharTypeRoundTrip(c, extractLength, extractScale);
    } else if c.columnType in {Bool, SignedInt, Real} {
      NumberTypeRoundTrip(c, extractLength, extractScale);
    } else if c.columnType in {Text, Blob, Uuid, Date} {
      PlainTypeRoundTrip(c, extractLength, extractScale);
    } else {
      TimeTypeRoundTrip(c, extractLength, extractScale);
    }
  }

  /** The whole listed column carries the created column's type. */
  lemma FixedNameColumnRoundTrip(c: Column, notNull: string, hasDefault: string, defaultText: string,
                                 extractLength: string -> nat, extractScale: string -> nat)
    requires FixedNameColumn(c)
    ensures ColumnTypeText(c).TypeName?
    ensures var listed := ColumnFromRow(AttributeRow(c.name, ColumnTypeText(c).text, notNull, hasDefault, defaultText),
                                        extractLength, extractScale);
            && listed.name == c.name && listed.columnType == c.columnType && listed.size == c.size
            && listed.scale == c.scale && listed.flags == c.flags && listed.dbTypeDef == ""
  {
    FixedNameTypeRoundTrip(c, extractLength, extractScale);
  }

  /** Text opening with `numeric(` is a DECIMAL sized by the parsers. */
  lemma NumericTextClassified(text: string, extractLength: string -> nat, extractScale: string -> nat)
    requires |text| >= 8 && text[..8] == "numeric("
    ensures ClassifyType(text, extractLength, extractScale)
            == ListedType(Decimal, extractLength(text), extractScale(text), NoFlags, "", "", "")
  {
    NotAnExactTypeName(text);
    assert Substr(text, 0, 8) == "numeric(";
  }

  /** Text opening with `character varying(` is a VARCHAR sized by the parser. */
  lemma VaryingTextClassified(text: string, extractLength: string -> nat, extractScale: string -> nat)
    requires |text| >= 18 && text[..18] == "character varying("
    ensures ClassifyType(text, extractLength, extractScale) == ListedType(VarChar, extractLength(text), 0, NoFlags, "", "", "")
  {
    NotAnExactTypeName(text);
    SubstrDiffersAtHead(text, "numeric(");
    SubstrDiffersAtHead(text, "numeric");
    assert Substr(text, 0, 18) == "character varying(";
  }

  /** Text opening with `character(` is a CHAR sized by the parser. */
  lemma CharacterTextClassified(text: string, extractLength: string -> nat, extractScale: string -> nat)
    requires |text| >= 10 && text[..10] == "character("
    ensures ClassifyType(text, extractLength, extractScale) == ListedType(FixedChar, extractLength(text), 0, NoFlags, "", "", "")
  {
    NotAnExactTypeName(text);
    SubstrDiffersAtHead(text, "numeric(");
    SubstrDiffersAtHead(text, "numeric");
    assert Substr(text, 0, 18) != "character varying(" by {
      if |text| >= 18 {
        assert Substr(text, 0, 18)[9] == text[9] == '(';
      }
    }
    assert Substr(text, 0, 18) != "character varying" by {
      assert |Substr(text, 0, 18)| == 17 ==> |text| == 17;
      if |text| == 17 {
        assert Substr(text, 0, 18)[9] == text[9] == '(';
      }
    }
    assert Substr(text, 0, 10) == "character(";
  }

  /** CHAR(n), VARCHAR(n) and DECIMAL(p,s) names list back as the same type;
      their sizes come from the length and scale parsers. */
  lemma SizedTypeRoundTrip(c: Column, extractLength: string -> nat, extractScale: string -> nat)
    requires c.columnType in {FixedChar, VarChar, Decimal}
    ensures ColumnTypeText(c).TypeName?
    ensures ClassifyType(ColumnTypeText(c).text, extractLength, extractScale).columnType == c.columnType
  {
    var text := ColumnTypeText(c).text;
    if c.columnType == FixedChar {
      assert text[..10] == "character(";
      CharacterTextClassified(text, extractLength, extractScale);
    } else if c.columnType == VarChar && c.size > 0 {
      assert text[..18] == "character varying(";
      VaryingTextClassified(text, extractLength, extractScale);
    } else if c.columnType == VarChar {
      FixedNameTypeRoundTrip(c.(scale := 0, flags := NoFlags, typeRestriction := "", referenceSystem := ""),
                             extractLength, extractScale);
    } else if c.size != 0 {
      assert text[..8] == "numeric(";
      NumericTextClassified(text, extractLength, extractScale);
    } else {
      assert text == "numeric";
      NotAnExactTypeName(text);
      assert |Substr(text, 0, 8)| == 7;
      assert Substr(text, 0, 7) == "numeric";
    }
  }

  /** A string `ToLower` leaves as it is. */
  predicate LowerCase(s: string)
  {
    forall i :: 0 <= i < |s| ==> !('A' <= s[i] <= 'Z')
  }

  /** A spatial column with a reference system is named with both inside
      the brackets, `geometry` standing in for a missing restriction. */
  lemma SpatialTextWithReferenceSystem(c: Column)
    requires c.columnType == Spatial && |c.referenceSystem| > 0
    ensures ColumnTypeText(c)
            == TypeName("geometry(" + ((if |c.typeRestriction| == 0 then "geometry" else c.typeRestriction)
                                       + "," + c.referenceSystem) + ")")
  {
  }

  /** A spatial column with a reference system lists back with both its
      restriction and its reference system. */
  lemma SpatialReferenceSystemRoundTrip(c: Column, extractLength: string -> nat, extractScale: string -> nat)
    requires c.columnType == Spatial && c.size == 0 && c.scale == 0 && c.flags == NoFlags
    requires LowerCase(c.typeRestriction) && LowerCase(c.referenceSystem) && ',' !in c.typeRestriction
    requires c.typeRestriction != "geometry" && |c.referenceSystem| > 0
    requires |c.typeRestriction| + |c.referenceSystem| < SizeTModulus - 9
    ensures ColumnTypeText(c).TypeName?
    ensures SameType(ClassifyType(ColumnTypeText(c).text, extractLength, extractScale), c)
  {
    var restriction := if |c.typeRestriction| == 0 then "geometry" else c.typeRestriction;
    var inner := restriction + "," + c.referenceSystem;
    SpatialTextWithReferenceSystem(c);
    assert ',' !in restriction && LowerCase(restriction) by {
      if |c.typeRestriction| == 0 {
        assert restriction == "geometry";
      }
    }
    SplitAtFirstComma(restriction, c.referenceSystem);
    BracketedGeometryClassified(inner, extractLength, extractScale);
  }

  /** A spatial column with a restriction and no reference system lists
      back with its restriction. */
  lemma SpatialRestrictionRoundTrip(c: Column, extractLength: string -> nat, extractScale: string -> nat)
    requires c.columnType == Spatial && c.size == 0 && c.scale == 0 && c.flags == NoFlags
    requires LowerCase(c.typeRestriction) && ',' !in c.typeRestriction
    requires |c.typeRestriction| > 0 && c.referenceSystem == ""
    requires |c.typeRestriction| < SizeTModulus - 9
    ensures ColumnTypeText(c).TypeName?
    ensures SameType(ClassifyType(ColumnTypeText(c).text, extractLength, extractScale), c)
  {
    var text := ColumnTypeText(c).text;
    assert text == "geometry(" + c.typeRestriction + ")";
    assert ExtractSpatial(c.typeRestriction) == SpatialType(c.typeRestriction, "") by {
      LowerCaseFixed(c.typeRestriction);
    }
    BracketedGeometryClassified(c.typeRestriction, extractLength, extractScale);
  }

  /** A spatial column lists back with its restriction and reference system
      when both are lower case, the restriction has no comma, and a
      reference system does not follow the restriction `geometry` (which
      would be read back as no restriction). */
  lemma SpatialTypeRoundTrip(c: Column, extractLength: string -> nat, extractScale: string -> nat)
    requires c.columnType == Spatial && c.size == 0 && c.scale == 0 && c.flags == NoFlags
    requires LowerCase(c.typeRestriction) && LowerCase(c.referenceSystem) && ',' !in c.typeRestriction
    requires !(c.typeRestriction == "geometry" && c.referenceSystem != "")
    requires |c.typeRestriction| + |c.referenceSystem| < SizeTModulus - 9
    ensures ColumnTypeText(c).TypeName?
    ensures SameType(ClassifyType(ColumnTypeText(c).text, extractLength, extractScale), c)
  {
    if |c.referenceSystem| > 0 {
      SpatialReferenceSystemRoundTrip(c, extractLength, extractScale);
    } else if |c.typeRestriction| > 0 {
      SpatialRestrictionRoundTrip(c, extractLength, extractScale);
    } else {
      assert ColumnTypeText(c).text == "geometry";
      BareGeometryClassified(extractLength, extractScale);
    }
  }

  /** The first comma of `a + "," + b` is the one after `a` when `a` has none. */
  lemma FirstCommaOfJoin(a: string, b: string)
    requires ',' !in a
    ensures FirstIndexOf(a + "," + b, ',') == |a|
  {
    var text := a + "," + b;
    assert forall j :: 0 <= j < |a| ==> text[j] == a[j];
    assert text[|a|] == ',';
  }

  /** Lower-casing leaves lower-case text unchanged. */
  lemma LowerCaseFixed(s: string)
    requires LowerCase(s)
    ensures ToLower(s) == s
  {
  }

  /** Lower-case text split at its first comma gives back the two parts. */
  lemma SplitAtFirstComma(restriction: string, referenceSystem: string)
    requires ',' !in restriction && LowerCase(restriction) && LowerCase(referenceSystem)
    ensures var r := ExtractSpatial(restriction + "," + referenceSystem);
            && r.referenceSystem == referenceSystem
            && r.typeRestriction == (if restriction == "geometry" then "" else restriction)
  {
    var text := restriction + "," + referenceSystem;
    assert LowerCase(text) by {
      assert forall j :: 0 <= j < |restriction| ==> text[j] == restriction[j];
      assert forall j :: |restriction| < j < |text| ==> text[j] == referenceSystem[j - |restriction| - 1];
    }
    LowerCaseFixed(text);
    FirstCommaOfJoin(restriction, referenceSystem);
    assert text[..|restriction|] == restriction;
    assert text[|restriction| + 1..] == referenceSystem;
  }

  /** A restriction of `geometry` followed by a reference system is read
      back as no restriction, so such a column does not list back as it was
      created. */
  lemma GeometryRestrictionWithReferenceSystemCleared(c: Column, extractLength: string -> nat, extractScale: string -> nat)
    requires c.columnType == Spatial && c.typeRestriction == "geometry" && |c.referenceSystem| > 0
    requires LowerCase(c.referenceSystem) && |c.referenceSystem| < SizeTModulus - 9
    ensures ColumnTypeText(c).TypeName?
    ensures var t := ClassifyType(ColumnTypeText(c).text, extractLength, extractScale);
            t.columnType == Spatial && t.typeRestriction == "" && t.referenceSystem == c.referenceSystem
  {
    var inner := "geometry" + "," + c.referenceSystem;
    SpatialTextWithReferenceSystem(c);
    assert ',' !in "geometry" && LowerCase("geometry");
    SplitAtFirstComma("geometry", c.referenceSystem);
    BracketedGeometryClassified(inner, extractLength, extractScale);
  }

  /** The type texts the column lister recognises: its exact names, and
      the texts opening with `numeric`, `character varying(`, `character(`
      or `geometry(`. */
  predicate RecognisedTypeText(text: string)
  {
    || text in {"boolean", "smallint", "integer", "bigint", "real", "double precision", "character varying",
                "text", "bytea", "uuid", "date", "time without time zone", "time with time zone",
                "timestamp without time zone", "timestamp with time zone", "geometry"}
    || "numeric" <= text || "character varying(" <= text || "character(" <= text || "geometry(" <= text
  }

  /** The lister's `substr(0, 18) == "character varying"` test, one
      character longer than the literal, holds of that exact text only. */
  lemma SubstrOneLonger(text: string, lit: string)
    ensures Substr(text, 0, |lit| + 1) == lit <==> text == lit
  {
  }

  /** None of the lister's tests, in its own `substr` terms, holds. */
  predicate NoTypeTestPasses(text: string)
  {
    && text != "boolean" && text != "smallint" && text != "integer" && text != "bigint"
    && text != "real" && text != "double precision" && text != "text" && text != "bytea"
    && text != "uuid" && text != "date" && text != "time without time zone" && text != "time with time zone"
    && text != "timestamp without time zone" && text != "timestamp with time zone" && text != "geometry"
    && Substr(text, 0, 8) != "numeric(" && Substr(text, 0, 7) != "numeric"
    && Substr(text, 0, 18) != "character varying(" && Substr(text, 0, 18) != "character varying"
    && Substr(text, 0, 10) != "character(" && Substr(text, 0, 9) != "geometry("
  }

  /** When none of the lister's tests holds, it falls through to UNKNOWN. */
  lemma UnknownWhenNoTestPasses(text: string, extractLength: string -> nat, extractScale: string -> nat)
    requires NoTypeTestPasses(text)
    ensures ClassifyType(text, extractLength, extractScale) == ListedType(Unknown, 0, 0, NoFlags, "", "", text)
  {
  }

  /** `numeric` without a bracket right after it is an unsized DECIMAL. */
  lemma BareNumericClassified(text: string, extractLength: string -> nat, extractScale: string -> nat)
    requires "numeric" <= text && !("numeric(" <= text)
    ensures ClassifyType(text, extractLength, extractScale) == ListedType(Decimal, 0, 0, NoFlags, "", "", "")
  {
    assert text[0] == 'n';
    NotAnExactTypeName(text);
    SubstrIsPrefix(text, "numeric(");
    SubstrIsPrefix(text, "numeric");
  }

  /** `character varying` alone is an unsized VARCHAR. */
  lemma BareVaryingClassified(extractLength: string -> nat, extractScale: string -> nat)
    ensures ClassifyType("character varying", extractLength, extractScale) == ListedType(VarChar, 0, 0, NoFlags, "", "", "")
  {
    var text := "character varying";
    NotAnExactTypeName(text);
    SubstrDiffersAtHead(text, "numeric(");
    SubstrDiffersAtHead(text, "numeric");
    assert Substr(text, 0, 18) == "character varying";
  }

  /** Recognised text opening with one of the lister's prefixes is never
      UNKNOWN. */
  lemma PrefixedTextNotUnknown(text: string, extractLength: string -> nat, extractScale: string -> nat)
    requires "numeric" <= text || "character varying(" <= text || "character(" <= text || "geometry(" <= text
    ensures ClassifyType(text, extractLength, extractScale).columnType != Unknown
  {
    if "numeric(" <= text {
      NumericTextClassified(text, extractLength, extractScale);
    } else if "numeric" <= text {
      BareNumericClassified(text, extractLength, extractScale);
    } else if "character varying(" <= text {
      VaryingTextClassified(text, extractLength, extractScale);
    } else if "character(" <= text {
      CharacterTextClassified(text, extractLength, extractScale);
    } else {
      GeometryTextClassified(text, extractLength, extractScale);
    }
  }

  /** Each of the lister's exact type names is listed as a known type. */
  lemma ExactNameNotUnknown(text: string, extractLength: string -> nat, extractScale: string -> nat)
    requires text in {"boolean", "smallint", "integer", "bigint", "real", "double precision", "character varying",
                      "text", "bytea", "uuid", "date", "time without time zone", "time with time zone",
                      "timestamp without time zone", "timestamp with time zone", "geometry"}
    ensures ClassifyType(text, extractLength, extractScale).columnType != Unknown
  {
    BooleanNameClassified(extractLength, extractScale);
    SmallintNameClassified(extractLength, extractScale);
    IntegerNameClassified(extractLength, extractScale);
    BigintNameClassified(extractLength, extractScale);
    RealNameClassified(extractLength, extractScale);
    DoublePrecisionNameClassified(extractLength, extractScale);
    BareVaryingClassified(extractLength, extractScale);
    TextNameClassified(extractLength, extractScale);
    ByteaNameClassified(extractLength, extractScale);
    UuidNameClassified(extractLength, extractScale);
    DateNameClassified(extractLength, extractScale);
    TimeNameClassified(extractLength, extractScale);
    TimeZoneNameClassified(extractLength, extractScale);
    TimestampNameClassified(extractLength, extractScale);
    TimestampZoneNameClassified(extractLength, extractScale);
    BareGeometryClassified(extractLength, extractScale);
  }

  /** The lister's `substr` tests are the prefix tests of the recognised
      texts. */
  lemma NoTypeTestPassesIffUnrecognised(text: string)
    ensures NoTypeTestPasses(text) <==> !RecognisedTypeText(text)
  {
    SubstrIsPrefix(text, "numeric(");
    SubstrIsPrefix(text, "numeric");
    SubstrIsPrefix(text, "character varying(");
    SubstrOneLonger(text, "character varying");
    SubstrIsPrefix(text, "character(");
    SubstrIsPrefix(text, "geometry(");
    assert "numeric(" <= text ==> "numeric" <= text;
  }

  /** Type text becomes UNKNOWN exactly when the lister does not recognise
      it, and then carries the text unchanged. */
  lemma UnrecognisedTypeKept(text: string, extractLength: string -> nat, extractScale: string -> nat)
    ensures ClassifyType(text, extractLength, extractScale).columnType == Unknown <==> !RecognisedTypeText(text)
    ensures !RecognisedTypeText(text) ==>
              ClassifyType(text, extractLength, extractScale) == ListedType(Unknown, 0, 0, NoFlags, "", "", text)
  {
    NoTypeTestPassesIffUnrecognised(text);
    if RecognisedTypeText(text) {
      if "numeric" <= text || "character varying(" <= text || "character(" <= text || "geometry(" <= text {
        PrefixedTextNotUnknown(text, extractLength, extractScale);
      } else {
        ExactNameNotUnknown(text, extractLength, extractScale);
      }
    } else {
      UnknownWhenNoTestPasses(text, extractLength, extractScale);
    }
  }

  /** A bare `geometry(` wraps the length computation and lists as a spatial
      column with empty restriction and reference system. */
  lemma BareGeometryBracketWraps(extractLength: string -> nat, extractScale: string -> nat)
    ensures ClassifyType("geometry(", extractLength, extractScale) == ListedType(Spatial, 0, 0, NoFlags, "", "", "")
  {
    var text := "geometry(";
    assert text[..9] == "geometry(";
    GeometryTextClassified(text, extractLength, extractScale);
    assert SizeT(|text| - 10) == SizeTModulus - 1;
    assert Substr(text, 9, SizeTModulus - 1) == "";
    assert ToLower("") == "" && FirstIndexOf("", ',') == -1;
  }

  /** A `nextval('…'::regclass)` default is a sequence, whatever the name. */
  lemma SequenceDefaultRecognised(dbType: string, sequenceName: string)
    ensures ClassifyDefault(dbType, "t", "nextval('" + sequenceName + "'::regclass)") == ColumnDefault(Sequence, "")
  {
    var text := "nextval('" + sequenceName + "'::regclass)";
    assert text[..9] == "nextval('";
    assert text[|text| - 12..] == "'::regclass)";
  }

  /** A `substr(0, n)` test against an `n`-character literal is a prefix
      test. */
  lemma SubstrIsPrefix(text: string, lit: string)
    ensures Substr(text, 0, |lit|) == lit <==> lit <= text
  {
  }

  /** Default text that is neither a sequence call, a `NULL::` cast nor
      quoted is an expression when it has a character other than a digit or
      a point and is not a boolean, and a plain value otherwise. */
  lemma UnquotedDefault(dbType: string, text: string)
    requires |text| > 0 && text[0] != '\''
    requires !("nextval('" <= text) && !("NULL::" <= text)
    ensures ClassifyDefault(dbType, "t", text)
            == if text != "false" && text != "true" && HasNonNumericChar(text)
               then ColumnDefault(DefaultExpression, PortableExpression(text))
               else ColumnDefault(DefaultValue, text)
  {
    SubstrIsPrefix(text, "nextval('");
    SubstrIsPrefix(text, "NULL::");
  }

  /** PostgreSQL's spelling of CURRENT_TIMESTAMP is turned back into it. */
  lemma NowDefault(dbType: string)
    ensures ClassifyDefault(dbType, "t", "now()") == ColumnDefault(DefaultExpression, "CURRENT_TIMESTAMP")
  {
    UnquotedDefault(dbType, "now()");
    assert "now()"[3] !in "0123456789.";
  }

  /** PostgreSQL's spelling of CURRENT_DATE is turned back into it. */
  lemma CurrentDateDefault(dbType: string)
    ensures ClassifyDefault(dbType, "t", "('now'::text)::date") == ColumnDefault(DefaultExpression, "CURRENT_DATE")
  {
    UnquotedDefault(dbType, "('now'::text)::date");
    assert "('now'::text)::date"[0] !in "0123456789.";
  }

  /** The portable rewrite is idempotent: no text it produces is one of
      the PostgreSQL spellings it rewrites. */
  lemma PortableExpressionIdempotent(text: string)
    ensures PortableExpression(PortableExpression(text)) == PortableExpression(text)
  {
  }

  /** Quoting one of the three function names and adding brackets gives
      back that name after the portable rewrite. */
  lemma QuotedFunctionExpression(name: string)
    requires name in {"current_schema", "current_user", "session_user"}
    ensures PortableExpression("\"" + name + "\"()") == name
  {
    if name == "current_schema" {
      assert "\"" + name + "\"()" == "\"current_schema\"()";
    } else if name == "current_user" {
      assert "\"" + name + "\"()" == "\"current_user\"()";
    } else {
      assert "\"" + name + "\"()" == "\"session_user\"()";
    }
  }

  /** The quoted zero-argument functions `current_schema`, `current_user`
      and `session_user` lose their quotes and brackets. */
  lemma QuotedFunctionDefault(dbType: string, name: string)
    requires name in {"current_schema", "current_user", "session_user"}
    ensures ClassifyDefault(dbType, "t", "\"" + name + "\"()") == ColumnDefault(DefaultExpression, name)
  {
    var text := "\"" + name + "\"()";
    assert text[0] == '"';
    assert !("nextval('" <= text) && !("NULL::" <= text) by {
      assert "nextval('"[0] != text[0] && "NULL::"[0] != text[0];
    }
    assert HasNonNumericChar(text) by {
      assert text[0] !in "0123456789.";
    }
    assert text != "false" && text != "true" by {
      assert "false"[0] != text[0] && "true"[0] != text[0];
    }
    UnquotedDefault(dbType, text);
    QuotedFunctionExpression(name);
  }

  /** `NULL` cast to (a prefix of) the column's type is the expression NULL. */
  lemma NullCastDefault(dbType: string, castType: string)
    requires |castType| <= |dbType| && dbType[..|castType|] == castType && |castType| < SizeTModulus
    ensures ClassifyDefault(dbType, "t", "NULL::" + castType) == ColumnDefault(DefaultExpression, "NULL")
  {
    var text := "NULL::" + castType;
    SubstrDiffersAtHead(text, "nextval('");
    assert Substr(text, 0, 6) == "NULL::";
    assert text[6..] == castType;
    assert Substr(dbType, 0, SizeT(|text| - 6)) == castType;
  }

  /** The text between the first and the last quote of a quoted literal
      followed by a quote-free cast is the quoted text. */
  lemma QuotedInnerText(quoted: string, cast: string)
    requires '\'' !in cast && |quoted| < SizeTModulus
    ensures var text := "'" + quoted + "'" + cast;
            Substr(text, 1, SizeT(LastIndexOf(text, '\'') - 1)) == quoted
  {
    var text := "'" + quoted + "'" + cast;
    assert LastIndexOf(text, '\'') == |quoted| + 1 by {
      assert text[|quoted| + 1] == '\'';
      assert forall j :: |quoted| + 1 < j < |text| ==> text[j] == cast[j - |quoted| - 2];
    }
    assert SizeT(|quoted|) == |quoted|;
    assert text[1..1 + |quoted|] == quoted by {
      assert text == ("'" + quoted) + ("'" + cast);
      assert ("'" + quoted)[1..] == quoted;
    }
  }

  /** A quoted literal, written with `DoubleEscapeChars` and followed by a
      cast, is the literal value. */
  lemma QuotedLiteralDefault(dbType: string, value: string, cast: string)
    requires '\'' !in cast && |value| + |cast| > 0 && |value| < SizeTModulus / 2
    ensures ClassifyDefault(dbType, "t", "'" + DoubleEscapeChars(value) + "'" + cast) == ColumnDefault(DefaultValue, value)
  {
    var quoted := DoubleEscapeChars(value);
    var text := "'" + quoted + "'" + cast;
    assert text[0] == '\'' && |text| > 2;
    assert Substr(text, 0, 9) != "nextval('" by { SubstrDiffersAtHead(text, "nextval('"); }
    assert Substr(text, 0, 6) != "NULL::" by { SubstrDiffersAtHead(text, "NULL::"); }
    QuotedInnerText(quoted, cast);
    UnescapeUndoesDoubling(value);
  }

  /** Numbers and booleans are kept as plain values. */
  lemma NumericDefaultKept(dbType: string, text: string)
    requires 0 < |text| && forall i :: 0 <= i < |text| ==> text[i] in "0123456789."
    ensures ClassifyDefault(dbType, "t", text) == ColumnDefault(DefaultValue, text)
    ensures ClassifyDefault(dbType, "t", "true") == ColumnDefault(DefaultValue, "true")
    ensures ClassifyDefault(dbType, "t", "false") == ColumnDefault(DefaultValue, "false")
  {
    assert text[0] in "0123456789.";
    UnquotedDefault(dbType, text);
    UnquotedDefault(dbType, "true");
    UnquotedDefault(dbType, "false");
  }

  /** The empty literal without a cast is too short for the literal case and
      is taken as an expression. */
  lemma BareEmptyLiteralIsExpression(dbType: string)
    ensures ClassifyDefault(dbType, "t", "''") == ColumnDefault(DefaultExpression, "''")
  {
    var text := "''";
    SubstrDiffersAtHead(text, "NULL::");
    assert text[0] !in "0123456789.";
  }

  /** After conversion every column has a PostgreSQL type name except the
      types PostgreSQL has none for (JSON, ENUM and unknown types). */
  lemma ConvertedColumnsHaveTypeNames(c: Column)
    requires c.columnType !in {Json, Enum, Unknown}
    requires c.columnType in {SignedInt, UnsignedInt} ==> c.size in {1, 2, 3, 4, 8}
    ensures ColumnTypeText(ConvertColumn(c)).TypeName?
  {
  }
}
