# Kitchen Sync schema core in Dafny

Kitchen Sync synchronises two databases. Before copying any rows, the two
ends exchange schemas: the `to` end checks that the `from` end's schema
matches its own, table by table. This project models three parts of that
code:

- **The portable schema** of `src/schema.h`. `Column`, `Key`, `Table` and
  `Database` are modelled with their equalities and orders. That includes
  the primary-key comparison that counts only explicit keys, and column
  equality ignoring `db_type_def` and `filter_expression`.
- **The schema matcher** of `src/schema_functions.cpp`. It filters tables by
  the ignore and only sets and merges the two name-sorted table lists. For
  each common table it checks the columns, then the primary key, then the
  keys, and it stops at the first mismatch. A mismatch is the `Mismatch`
  arm of an `Outcome` value, carrying the kind of disagreement and the names
  involved.
- **The pure parts of the PostgreSQL endpoint** in `src/ks_postgresql.cpp`:
  - the rewrite of a received schema into what PostgreSQL can hold;
  - the PostgreSQL name of each portable type;
  - the column lister that reads type and default texts back, with its
    unescaping and spatial-type helpers;
  - the key lister that groups index rows into keys;
  - the choice of value encoding by type OID.

Modules follow the source:

| module | file | models |
|---|---|---|
| `Lexical` | lexical.dfy | `std::string` ordering |
| `Schema` | schema.dfy | `src/schema.h` |
| `Sorting` | sorting.dfy | the `std::sort` calls of the matcher |
| `SchemaFunctions` | schema_functions.dfy | `src/schema_functions.cpp` |
| `MatcherProperties` | matcher_properties.dfy | reflexivity, filtering, first disagreement |
| `TableCheckProperties` | table_check_properties.dfy | per-table checks |
| `PostgreSQL` | postgresql.dfy | schema conversion, `column_type`, `conversion_for_type` |
| `PostgreSQLListers` | postgresql_listers.dfy | the column and key listers and their helpers |
| `PostgreSQLProperties` | postgresql_properties.dfy | naming and listing back |

Modelling choices:

- **Column types.** The `ColumnTypes` string constants become a closed
  enumeration. `ColumnFlags` becomes a record of five booleans, one per bit.
- **Default column type.** A default-constructed `Column` has an empty
  `column_type` string. The model gives it `Unknown`. As a consequence the
  model's default column equals an UNKNOWN column whose other fields are
  the defaults, while in C++ the two differ (`""` is not `"UNKNOWN"`).
- **`size_t` arithmetic.** The listers compute some lengths that can wrap.
  These are written out explicitly with `SizeT` (modulo 2^64):
  - `length() - 10` for the bare `geometry(` text;
  - `rfind('\'') - 1` when the only quote is the first character.
- **Strings are bytes.** A `std::string` is modelled as a sequence of
  `char`, one element per byte. Multi-byte UTF-8 text is not decoded, so
  every length, offset and limit counts bytes: the 63-byte key-name limit,
  the 20-byte test on default texts and every `substr` position.
- **String operations.** `substr`, `find` and `rfind` are modelled with the
  source's clamping. `npos` is written as -1.
- **Unescaping.** A trailing escape character makes `unescape_string_value`
  read the string's terminating NUL. The model does the same.
- **`check_key_match`.** It compares `from_key.unique` with
  `to_key.unique`, which are member functions. It is modelled as comparing
  `unique()`, so a standard key and a spatial key pass the check.
- **`Key(key_name, unique)`.** The key lister passes a boolean where a
  `KeyType` is expected. It is modelled as a unique key when the flag is
  true and a standard key otherwise.
- **Primary-key rules.** The matcher's primary-key check compares the raw
  column-index lists and never looks at `primary_key_type`
  (src/schema_functions.cpp:51-55). `Table::operator==` goes through
  `same_primary_key_as`, which consults `primary_key_type` and counts only
  explicit keys. Both rules are kept, and
  `TableCheckProperties.PrimaryKeyRulesDiffer` shows they disagree both ways.
- **Sorting.** `std::sort` is modelled by an insertion sort that keeps the
  same multiset and produces a sorted list. `std::sort` is not stable: when a
  comparison can tie, as for two keys of one type and name, the model's
  order may differ from the library's. For tables with distinct names the
  sorted list is the same.
- **External parsers.** `extract_column_length` and `extract_column_scale`
  are defined outside the modelled files. They are parameters of the column
  lister.
- **`Table::index_of_column`.** It is resolved by the caller. Each index row
  already carries the column position.

## Model

| member | source | states |
|---|---|---|
| `Lexical.StrLessIrreflexive` | src/schema.h:139 | no name sorts before itself |
| `Lexical.StrLessAsymmetric` | src/schema.h:139 | two names are never each before the other |
| `Lexical.StrLessTransitive` | src/schema.h:139 | the string order is transitive |
| `Lexical.StrLessConnected` | src/schema.h:139 | two different names are always ordered one way or the other |
| `Lexical.StrNotLessTransitive` | src/schema.h:139 | "not after" is transitive, as sorting by name needs |
| `Schema.MakeColumn` | src/schema.h:74 | the full column constructor stores each argument in its field, with no enumeration values and no filter expression |
| `Schema.DefaultColumn` | src/schema.h:75 | a default column is nullable, has size and scale 0, no default and no flags |
| `Schema.ColumnEq` | src/schema.h:77-89 | column equality holds exactly when the columns agree after `db_type_def` and `filter_expression` are cleared |
| `Schema.ColumnEqIgnoresLocalFields` | src/schema.h:68-72 | changing only `db_type_def` or `filter_expression` leaves a column equal to itself |
| `Schema.DefaultKey` | src/schema.h:108 | a default key is a standard key: not unique, not spatial, no columns |
| `Schema.KeyFlagsExclusive` | src/schema.h:110-111 | `unique()` and `spatial()` each hold exactly for their key type and never together |
| `Schema.KeyEq` | src/schema.h:114 | key equality is equality of name, key type and ordered column list |
| `Schema.KeyLessStrictWeakOrder` | src/schema.h:113 | the key order is irreflexive and transitive; two keys are unordered exactly when type and name agree |
| `Schema.KeyNotLessTransitive` | src/schema.h:113 | "not before" on keys is transitive |
| `Schema.NewTable` | src/schema.h:130-136 | a new table has the given name, no columns or keys, and no available primary key |
| `Schema.ExplicitColumnCount` | src/schema.h:146-147 | the counted primary-key columns never exceed the table's primary-key columns |
| `Schema.SamePrimaryKeyAs` | src/schema.h:145-149 | primary keys agree exactly when their explicit-key prefixes are equal |
| `Schema.SamePrimaryKeyCases` | src/schema.h:145-149 | two non-explicit keys always agree; two explicit keys agree exactly when their lists are equal; explicit against non-explicit needs an empty list; the relation is symmetric |
| `Schema.ColumnsEqNormalised` | src/schema.h:140 | column lists are equal exactly when they are equal after clearing each column's local fields |
| `Schema.TableEq` | src/schema.h:140 | table equality holds exactly when the comparable parts agree: name, columns, counted primary key, keys |
| `Schema.TableEqEquivalence` | src/schema.h:133-141 | table equality is an equivalence and ignores `where_conditions` |
| `Schema.InequalityIsNegation` | src/schema.h:141 | `!=` is the negation of `==` for columns, keys and tables |
| `Sorting.InsertTable` | src/schema_functions.cpp:105-106 | inserting adds exactly the one table |
| `Sorting.InsertTableSorted` | src/schema_functions.cpp:105-106 | inserting into a name-sorted list keeps it sorted |
| `Sorting.SortTables` | src/schema_functions.cpp:105-106 | the sorted copy is a permutation of the tables, sorted by name |
| `Sorting.InsertKey` | src/schema_functions.cpp:68-69 | inserting adds exactly the one key |
| `Sorting.InsertKeySorted` | src/schema_functions.cpp:68-69 | inserting into a (type, name)-sorted key list keeps it sorted |
| `Sorting.SortKeys` | src/schema_functions.cpp:68-69 | the sorted copy is a permutation of the keys, sorted by key type, then name |
| `SchemaFunctions.CheckColumnsMatch` | src/schema_functions.cpp:29-49 | the column check passes exactly when the two name sequences are equal; a failure names the table and is a column diagnostic |
| `SchemaFunctions.CheckPrimaryKeyMatches` | src/schema_functions.cpp:51-55 | the primary-key check fails exactly when the two index lists differ, order included, reporting both lists |
| `SchemaFunctions.CheckKeyMatch` | src/schema_functions.cpp:57-64 | two keys pass exactly when `unique()` and the column lists agree; the unique flag is reported before the columns |
| `SchemaFunctions.MatchKeys` | src/schema_functions.cpp:71-86 | the name merge passes exactly when the sorted lists agree position by position on name, unique flag and columns |
| `SchemaFunctions.CheckKeysMatch` | src/schema_functions.cpp:66-87 | the key check passes exactly when the two sorted key lists agree position by position |
| `SchemaFunctions.CheckTableMatch` | src/schema_functions.cpp:89-94 | a table passes exactly when names, primary key and keys agree; a column problem is reported first, then the primary key, then keys; every diagnostic names the `from` table |
| `SchemaFunctions.SkipIgnoredTables` | src/schema_functions.cpp:96-101 | skipping drops exactly the leading out-of-scope tables and stops at an in-scope one |
| `SchemaFunctions.MatchTables` | src/schema_functions.cpp:108-126 | every table named by the merge is in scope |
| `SchemaFunctions.CheckSchemaMatch` | src/schema_functions.cpp:129-131 | every table named in a schema mismatch is in scope |
| `MatcherProperties.MatchScoped` | src/schema_functions.cpp:113-122 | on in-scope lists the merge passes exactly when the lists pair up into same-named tables that pass the table check |
| `MatcherProperties.TableListsAgreeCons` | src/schema_functions.cpp:119-121 | two lists pair up exactly when their heads match and their tails pair up |
| `MatcherProperties.FilterMembers` | src/schema_functions.cpp:97 | the filtered list holds exactly the in-scope tables of the original |
| `MatcherProperties.FilterSkipped` | src/schema_functions.cpp:96-101 | skipping does not change the in-scope tables |
| `MatcherProperties.MatchTablesFiltersFirst` | src/schema_functions.cpp:108-126 | merging with skips equals merging the filtered lists |
| `MatcherProperties.FilterConcat` | src/schema_functions.cpp:97 | filtering distributes over concatenation |
| `MatcherProperties.FilterInsert` | src/schema_functions.cpp:105-106 | filtering after an insertion equals inserting into the filtered list, or nothing for an out-of-scope table |
| `MatcherProperties.FilterSortCommute` | src/schema_functions.cpp:105-109 | sorting and filtering commute |
| `MatcherProperties.CheckSchemaMatchComparesInScopeTables` | src/schema_functions.cpp:103-131 | the schema check is the merge of the sorted in-scope tables only |
| `MatcherProperties.FilterDropsOutOfScope` | src/schema_functions.cpp:97 | an out-of-scope table inserted anywhere disappears under filtering |
| `MatcherProperties.OutOfScopeTableNeverCompared` | src/schema_functions.cpp:96-101 | adding an ignored or not-only table on either side never changes the outcome |
| `MatcherProperties.MatchTablesReflexive` | src/schema_functions.cpp:108-126 | a sorted list merged with itself passes |
| `MatcherProperties.CheckSchemaMatchReflexive` | src/schema_functions.cpp:129-131 | a database always matches itself, whatever the filters |
| `MatcherProperties.ScopedSmallestDisagreement` | src/schema_functions.cpp:113-125 | on strictly sorted lists the merge reports the smallest name held by one side only, as missing or extra, when all smaller common tables match |
| `MatcherProperties.FilterDistinct` | src/schema_functions.cpp:97 | filtering keeps names distinct |
| `MatcherProperties.InsertDistinct` | src/schema_functions.cpp:105-106 | inserting a new name keeps names distinct |
| `MatcherProperties.SortDistinct` | src/schema_functions.cpp:105-106 | sorting keeps names distinct |
| `MatcherProperties.StrictlySortedFromDistinct` | src/schema_functions.cpp:105-106 | a sorted list of distinct names is strictly increasing |
| `MatcherProperties.ScopedMembers` | src/schema_functions.cpp:105-109 | the sorted in-scope list holds exactly the in-scope tables and names |
| `MatcherProperties.SmallestDisagreementReported` | src/schema_functions.cpp:103-127 | for databases with distinct table names, the smallest in-scope name on which they disagree is reported as a missing table when only `from` has it and as an extra table when only `to` has it, when all smaller common tables match |
| `MatcherProperties.AddedTableReported` | src/schema_functions.cpp:113-126 | a database with one in-scope table added is reported with that table missing, and the other way round with it extra |
| `TableCheckProperties.CommonPrefixLength` | src/schema_functions.cpp:31-34 | the length of the longest common prefix of two name lists, maximal |
| `TableCheckProperties.ColumnCheckIsFirstDivergence` | src/schema_functions.cpp:29-49 | the column check's verdict is read off the first position where the name lists part: missing, extra, misordered, or trailing extra |
| `TableCheckProperties.ColumnDiagnosticMeaning` | src/schema_functions.cpp:36-47 | with unique names, a missing column is absent from `to`, an extra one is absent from `from`, and a misordered pair is on both sides |
| `TableCheckProperties.MissingColumnMeaning` | src/schema_functions.cpp:38-40 | with unique `from` names, a missing column is one `from` has and `to` lacks |
| `TableCheckProperties.ExtraColumnMeaning` | src/schema_functions.cpp:41-43 | with unique `to` names, an extra column is one `to` has and `from` lacks |
| `TableCheckProperties.MisorderedColumnMeaning` | src/schema_functions.cpp:44-46 | both columns a misordering names are on both sides |
| `TableCheckProperties.SwappedColumnsMisordered` | src/schema_functions.cpp:29-46 | two columns swapped anywhere in a list, with any columns before, between and after them, are reported as misordered, naming the `from` column and the one `to` has in its place |
| `TableCheckProperties.ColumnCheckIgnoresColumnDetails` | src/schema_functions.cpp:25-34 | equal name lists pass whatever the types, sizes or nullability |
| `TableCheckProperties.PrimaryKeyTypeNotConsulted` | src/schema_functions.cpp:51-55 | the primary key type never changes the table verdict |
| `TableCheckProperties.PrimaryKeyRulesDiffer` | src/schema_functions.cpp:51-55 | the matcher's primary-key rule and table equality disagree in both directions |
| `TableCheckProperties.StandardAndSpatialKeyNotToldApart` | src/schema_functions.cpp:58 | a standard key and a spatial key with equal name and columns pass the key check |
| `TableCheckProperties.RetypedKeyReportedMissing` | src/schema_functions.cpp:73-77 | a key that changed type can be reported missing although `to` has a key of that name |
| `TableCheckProperties.UniqueFlagChangeReported` | src/schema_functions.cpp:57-60 | in a table whose only key is `k`, `k` losing its unique flag is reported as a unique-flag mismatch on `k` |
| `TableCheckProperties.UniqueFlagChangeReportedAsExtraKey` | src/schema_functions.cpp:67-78 | beside a second key, the same flag change re-sorts the keys and the name-only merge reports the other key as extra instead |
| `TableCheckProperties.LeftoverKeyReportedExtra` | src/schema_functions.cpp:84-86 | keys `to` has beyond an agreeing prefix are reported extra, starting with the first of them |
| `PostgreSQL.ConvertColumn` | src/ks_postgresql.cpp:402-423 | a converted column is supported: unsigned becomes signed, sizes 1 and 3 become 2 and 4, TEXT and BLOB lose their size; nothing else changes; supported columns are untouched |
| `PostgreSQL.TruncateKeyName` | src/ks_postgresql.cpp:426-429 | key names of 63 bytes or more are cut to their first 63 bytes; shorter ones are kept |
| `PostgreSQL.ConvertKey` | src/ks_postgresql.cpp:425-430 | only the key name changes, and it fits PostgreSQL's limit |
| `PostgreSQL.ConvertTable` | src/ks_postgresql.cpp:401-431 | a converted table is supported; name, column names and order, primary key and key columns are kept |
| `PostgreSQL.ConvertDatabase` | src/ks_postgresql.cpp:400-433 | every table is converted in place, none added or dropped |
| `PostgreSQL.ConvertDatabaseIdempotent` | src/ks_postgresql.cpp:400-433 | the conversion leaves a supported schema, and a second pass changes nothing |
| `PostgreSQL.DecimalDigits` | src/ks_postgresql.cpp:446 | a size is written as a non-empty string of decimal digits |
| `PostgreSQL.DecimalDigitsRoundTrip` | src/ks_postgresql.cpp:446 | the digits written for a size read back as that size |
| `PostgreSQL.ColumnTypeText` | src/ks_postgresql.cpp:435-533 | a type name is produced exactly for the named types, and for INT only at sizes 2, 4 and 8; every failure names the column |
| `PostgreSQL.ConversionForType` | src/ks_postgresql.cpp:78-104 | booleans, the three integer widths and bytea are recognised by OID; geometry exactly for other OIDs in the geometry set |
| `PostgreSQL.BuiltInConversionIgnoresGeometryOids` | src/ks_postgresql.cpp:79-94 | the geometry OID set never changes the encoding of a built-in OID |
| `PostgreSQLListers.SizeT` | src/ks_postgresql.cpp:684 | storing into `size_t` keeps values in range and turns -1 into `npos` |
| `PostgreSQLListers.Substr` | src/ks_postgresql.cpp:654 | `substr` returns at most `count` characters from `pos`, clamped at the end |
| `PostgreSQLListers.LastIndexOf` | src/ks_postgresql.cpp:621 | `rfind` gives the last position of the character, or -1 when it is absent |
| `PostgreSQLListers.FirstIndexOf` | src/ks_postgresql.cpp:710 | `find` gives the first position of the character, or -1 when it is absent |
| `PostgreSQLListers.ToLower` | src/ks_postgresql.cpp:708 | lower-casing maps each ASCII capital to its small letter and keeps everything else |
| `PostgreSQLListers.Unescape` | src/ks_postgresql.cpp:692-705 | unescaping never lengthens the text and leaves text without backslashes or quotes unchanged |
| `PostgreSQLListers.UnescapeFromStep` | src/ks_postgresql.cpp:699-702 | one loop step consumes one plain character or an escape character and the character after it |
| `PostgreSQLListers.UnescapeStringValue` | src/ks_postgresql.cpp:692-705 | the index loop computes the recursive unescaping and never returns more characters than it reads |
| `PostgreSQLListers.DoubleEscapeChars` | src/ks_postgresql.cpp:699 | doubling quotes and backslashes at most doubles the length |
| `PostgreSQLListers.UnescapeUndoesDoubling` | src/ks_postgresql.cpp:692-705 | unescaping undoes `DoubleEscapeChars`: every string survives doubling its quotes and backslashes and unescaping |
| `PostgreSQLListers.ExtractSpatial` | src/ks_postgresql.cpp:707-720 | the text is lower-cased and split at its first comma; without a comma it is all restriction; a restriction of `geometry` is cleared only when a comma follows |
| `PostgreSQLListers.PortableExpression` | src/ks_postgresql.cpp:626-638 | `now()` and `('now'::text)::date` become CURRENT_TIMESTAMP and CURRENT_DATE; `"current_schema"()`, `"current_user"()` and `"session_user"()` lose their quotes and brackets; every other expression is kept as it stands |
| `PostgreSQLListers.QuotedCallInner` | src/ks_postgresql.cpp:636-637 | cutting the first character and the last three from each quoted call leaves the bare function name |
| `PostgreSQLProperties.PortableExpressionIdempotent` | src/ks_postgresql.cpp:626-638 | rewriting an already rewritten expression changes nothing |
| `PostgreSQLProperties.QuotedFunctionExpression` | src/ks_postgresql.cpp:636-637 | each of the three quoted calls rewrites to its function name |
| `PostgreSQLListers.ClassifyDefault` | src/ks_postgresql.cpp:601-640 | there is no default exactly when `atthasdef` is not `t`; no default and sequences carry an empty value; a plain value is never longer than the text |
| `PostgreSQLListers.ClassifyType` | src/ks_postgresql.cpp:642-689 | the listed type is from the portable vocabulary, integers have size 2, 4 or 8 and reals 4 or 8, only times carry the time-zone flag, and only UNKNOWN keeps the type text |
| `PostgreSQLListers.ColumnFromRow` | src/ks_postgresql.cpp:597-690 | a row lists as a column with its name, nullability from `attnotnull`, the classified default and the classified type |
| `PostgreSQLListers.ListColumns` | src/ks_postgresql.cpp:597-690 | one column per attribute row, in order |
| `PostgreSQLListers.KeyTypeOfRow` | src/ks_postgresql.cpp:745-751 | a row's key is unique exactly when `indisunique` is `t`, and never spatial |
| `PostgreSQLListers.AddKeyRow` | src/ks_postgresql.cpp:741-754 | a row with a new index name opens a key; one with the last key's name appends its column to that key and changes nothing else |
| `PostgreSQLListers.RunStarts` | src/ks_postgresql.cpp:750 | the positions where a new index name begins increase strictly and start at 0 |
| `PostgreSQLListers.RunStartsStep` | src/ks_postgresql.cpp:750 | one more row starts a new run exactly when its name differs from the previous row's |
| `PostgreSQLListers.AddKeyRowKeepsListed` | src/ks_postgresql.cpp:741-754 | listing one more row keeps the keys in step with the runs of the rows read |
| `PostgreSQLListers.AddKeyRowFollowsRuns` | src/ks_postgresql.cpp:741-754 | after one more row, key `i` is still the key of run `i` of the rows read |
| `PostgreSQLListers.ListKeys` | src/ks_postgresql.cpp:738-757 | the key lister yields one key per run of equal index names, named and flagged by the run's first row, holding the run's columns in order; no key is empty or spatial and neighbours differ in name |
| `PostgreSQLProperties.GeometryTextClassified` | src/ks_postgresql.cpp:682-685 | text opening with `geometry(` lists as spatial with the restriction and reference system from between the brackets |
| `PostgreSQLProperties.BracketedGeometryClassified` | src/ks_postgresql.cpp:682-685 | a bracketed geometry type lists with what lies between the brackets |
| `PostgreSQLProperties.BareGeometryClassified` | src/ks_postgresql.cpp:680-681 | the bare `geometry` type lists as spatial without restriction |
| `PostgreSQLProperties.NoPrefixTypeName` | src/ks_postgresql.cpp:654-663 | text opening with any letter but `c`, `n` or `g` passes none of the prefix tests |
| `PostgreSQLProperties.FixedNameTypeRoundTrip` | src/ks_postgresql.cpp:435-508 | naming a fixed-name column's type and listing it back recovers type, size, scale and flags |
| `PostgreSQLProperties.VarCharTypeRoundTrip` | src/ks_postgresql.cpp:443-446 | unsized VARCHAR is named `character varying` and lists back as unsized VARCHAR |
| `PostgreSQLProperties.NumberTypeRoundTrip` | src/ks_postgresql.cpp:460-479 | BOOL, INT of 2, 4 or 8 bytes and REAL of 4 or 8 list back with the same type and size |
| `PostgreSQLProperties.RealOfOtherSizeListsAsDouble` | src/ks_postgresql.cpp:478-479 | a REAL of any size other than 4 is named `double precision` and lists back as an 8-byte REAL, so sizes other than 4 and 8 change |
| `PostgreSQLProperties.PlainTypeRoundTrip` | src/ks_postgresql.cpp:436-494 | TEXT, BLOB, UUID and DATE list back as themselves |
| `PostgreSQLProperties.TimeTypeRoundTrip` | src/ks_postgresql.cpp:496-508 | TIME and DATETIME list back with their time-zone flag |
| `PostgreSQLProperties.BooleanNameClassified` | src/ks_postgresql.cpp:642-643 | `boolean` lists as BOOL |
| `PostgreSQLProperties.SmallintNameClassified` | src/ks_postgresql.cpp:644-645 | `smallint` lists as a 2-byte INT |
| `PostgreSQLProperties.IntegerNameClassified` | src/ks_postgresql.cpp:646-647 | `integer` lists as a 4-byte INT |
| `PostgreSQLProperties.BigintNameClassified` | src/ks_postgresql.cpp:648-649 | `bigint` lists as an 8-byte INT |
| `PostgreSQLProperties.RealNameClassified` | src/ks_postgresql.cpp:650-651 | `real` lists as a 4-byte REAL |
| `PostgreSQLProperties.DoublePrecisionNameClassified` | src/ks_postgresql.cpp:652-653 | `double precision` lists as an 8-byte REAL |
| `PostgreSQLProperties.TextNameClassified` | src/ks_postgresql.cpp:664-665 | `text` lists as TEXT |
| `PostgreSQLProperties.ByteaNameClassified` | src/ks_postgresql.cpp:666-667 | `bytea` lists as BLOB |
| `PostgreSQLProperties.UuidNameClassified` | src/ks_postgresql.cpp:668-669 | `uuid` lists as UUID |
| `PostgreSQLProperties.DateNameClassified` | src/ks_postgresql.cpp:670-671 | `date` lists as DATE |
| `PostgreSQLProperties.TimeNameClassified` | src/ks_postgresql.cpp:672-673 | `time without time zone` lists as TIME without the time-zone flag |
| `PostgreSQLProperties.TimeZoneNameClassified` | src/ks_postgresql.cpp:674-675 | `time with time zone` lists as TIME with the time-zone flag |
| `PostgreSQLProperties.TimestampNameClassified` | src/ks_postgresql.cpp:676-677 | `timestamp without time zone` lists as DATETIME without the flag |
| `PostgreSQLProperties.TimestampZoneNameClassified` | src/ks_postgresql.cpp:678-679 | `timestamp with time zone` lists as DATETIME with the flag |
| `PostgreSQLProperties.FixedNameColumnRoundTrip` | src/ks_postgresql.cpp:642-679 | the listed column carries the created column's name and type |
| `PostgreSQLProperties.NumericTextClassified` | src/ks_postgresql.cpp:654-655 | text opening with `numeric(` lists as DECIMAL sized by the parsers |
| `PostgreSQLProperties.VaryingTextClassified` | src/ks_postgresql.cpp:658-659 | text opening with `character varying(` lists as VARCHAR sized by the parser |
| `PostgreSQLProperties.CharacterTextClassified` | src/ks_postgresql.cpp:662-663 | text opening with `character(` lists as CHAR sized by the parser |
| `PostgreSQLProperties.SizedTypeRoundTrip` | src/ks_postgresql.cpp:442-491 | CHAR, VARCHAR and DECIMAL names list back as the same type |
| `PostgreSQLProperties.SpatialTypeRoundTrip` | src/ks_postgresql.cpp:510-528 | a spatial column with lower-case parts lists back with its restriction and reference system |
| `PostgreSQLProperties.SpatialReferenceSystemRoundTrip` | src/ks_postgresql.cpp:517-522 | a spatial column with a reference system lists back with its restriction and reference system |
| `PostgreSQLProperties.SpatialRestrictionRoundTrip` | src/ks_postgresql.cpp:523-525 | a spatial column with only a restriction lists back with that restriction |
| `PostgreSQLProperties.FirstCommaOfJoin` | src/ks_postgresql.cpp:710 | the first comma of `a,b` is the one after `a` when `a` has no comma |
| `PostgreSQLProperties.SplitAtFirstComma` | src/ks_postgresql.cpp:710-719 | lower-case text split at its first comma gives back the two parts, clearing a `geometry` restriction |
| `PostgreSQLProperties.GeometryRestrictionWithReferenceSystemCleared` | src/ks_postgresql.cpp:517-522 | a `geometry` restriction written with a reference system lists back as no restriction |
| `PostgreSQLProperties.UnrecognisedTypeKept` | src/ks_postgresql.cpp:642-688 | type text lists as UNKNOWN exactly when it is none of the sixteen names and opens with none of `numeric`, `character varying(`, `character(` and `geometry(`; then it carries the text and nothing else |
| `PostgreSQLProperties.SubstrIsPrefix` | src/ks_postgresql.cpp:654-684 | a `substr(0, n)` test against an `n`-character literal holds exactly when the text starts with the literal |
| `PostgreSQLProperties.SubstrOneLonger` | src/ks_postgresql.cpp:660 | a `substr` one character longer than the literal matches it only when the text is the literal |
| `PostgreSQLProperties.UnknownWhenNoTestPasses` | src/ks_postgresql.cpp:686-688 | text that fails every test of the lister lists as UNKNOWN carrying the text |
| `PostgreSQLProperties.NoTypeTestPassesIffUnrecognised` | src/ks_postgresql.cpp:642-685 | the lister's tests all fail exactly for text that is not a recognised type |
| `PostgreSQLProperties.BareNumericClassified` | src/ks_postgresql.cpp:656-657 | text opening with `numeric` but not `numeric(` lists as unsized DECIMAL |
| `PostgreSQLProperties.BareVaryingClassified` | src/ks_postgresql.cpp:660-661 | `character varying` lists as unsized VARCHAR |
| `PostgreSQLProperties.PrefixedTextNotUnknown` | src/ks_postgresql.cpp:654-663 | text opening with `numeric`, `character varying(`, `character(` or `geometry(` never lists as UNKNOWN |
| `PostgreSQLProperties.ExactNameNotUnknown` | src/ks_postgresql.cpp:642-681 | none of the sixteen exact type names lists as UNKNOWN |
| `PostgreSQLProperties.BareGeometryBracketWraps` | src/ks_postgresql.cpp:682-685 | a bare `geometry(` wraps the length to `npos` and lists as spatial with empty parts |
| `PostgreSQLProperties.SequenceDefaultRecognised` | src/ks_postgresql.cpp:608-612 | a `nextval('…'::regclass)` default is a sequence with an empty value |
| `PostgreSQLProperties.UnquotedDefault` | src/ks_postgresql.cpp:623-639 | non-empty default text that is not quoted and is neither a `nextval('` call nor a `NULL::` cast is an expression, rewritten to its portable form, when it has a character other than a digit or a point and is neither `true` nor `false`; otherwise it is a plain value |
| `PostgreSQLProperties.NowDefault` | src/ks_postgresql.cpp:627-628 | `now()` lists as the expression CURRENT_TIMESTAMP |
| `PostgreSQLProperties.CurrentDateDefault` | src/ks_postgresql.cpp:631-632 | `('now'::text)::date` lists as the expression CURRENT_DATE |
| `PostgreSQLProperties.QuotedFunctionDefault` | src/ks_postgresql.cpp:634-637 | the defaults `"current_schema"()`, `"current_user"()` and `"session_user"()` list as expressions naming the bare function |
| `PostgreSQLProperties.NullCastDefault` | src/ks_postgresql.cpp:614-618 | `NULL` cast to a prefix of the column type lists as the expression NULL |
| `PostgreSQLProperties.QuotedInnerText` | src/ks_postgresql.cpp:621 | the text between the first and last quote of a quoted literal with a quote-free cast is the quoted text |
| `PostgreSQLProperties.QuotedLiteralDefault` | src/ks_postgresql.cpp:620-621 | a quoted literal written with doubled quotes and backslashes lists as the literal value |
| `PostgreSQLProperties.NumericDefaultKept` | src/ks_postgresql.cpp:623 | any non-empty text of digits and points, `true` and `false` are kept as plain values |
| `PostgreSQLProperties.BareEmptyLiteralIsExpression` | src/ks_postgresql.cpp:620-624 | the empty literal `''` is too short for the literal case and lists as an expression |
| `PostgreSQLProperties.ConvertedColumnsHaveTypeNames` | src/ks_postgresql.cpp:400-476 | after conversion every column of a type PostgreSQL can name has a type name |

## Left out

- The connection to PostgreSQL through libpq is not modelled: result and row
  access, queries, transactions, snapshots, value escaping and the catalog
  SQL. The listers take the rows those queries would return as parameters.
- `column_default` and `column_definition` are not modelled. They depend on
  libpq escaping and on `quote_identifier`, which is not part of this model.
- The primary-key lister and the table lister are not modelled. This
  includes the key sort the table lister applies after listing and its
  choice of a surrogate unique key. Their logic lives in SQL text and in
  `index_of_column`, which is not part of this model.
- `populate_database_schema` is not modelled. It only runs the listers over
  catalog queries.
- `src/sync_to.h` is not modelled. It is stream plumbing with no
  handshake logic to verify.
- `src/protocol_versions.h` is not modelled. It holds constants only.
- Diagnostic message text is not modelled. A mismatch carries its kind and
  the names involved. `columns_list` is not part of this model, so
  primary-key and key-column mismatches carry the raw index lists.
- The read-only nature of the check is not stated as a contract. The model
  is functional, so the inputs cannot change. The sorts work on copies.
- PostgreSQLProperties.SizedTypeRoundTrip: states only that the type
  comes back. Sizes come from the external length and scale parsers, which
  are not part of this model.
- PostgreSQLProperties.SpatialTypeRoundTrip: requires lower-case parts, no
  comma in the restriction, and a total length that fits `size_t`. Other
  texts change when listed back, because the lister lower-cases and splits
  at the first comma.
- PostgreSQLProperties.BracketedGeometryClassified: requires text short
  enough that `size_t` arithmetic cannot wrap. Longer strings cannot exist
  in memory.
- PostgreSQLProperties.GeometryRestrictionWithReferenceSystemCleared:
  requires a lower-case reference system short enough for `size_t`.
- PostgreSQLProperties.NullCastDefault: requires a cast short enough for
  `size_t`.
- PostgreSQLProperties.QuotedLiteralDefault: requires a value short enough
  for `size_t`.
- PostgreSQLProperties.UnquotedDefault: leaves out texts that open with
  `nextval('` or `NULL::`. Those are covered by SequenceDefaultRecognised
  and NullCastDefault when the rest of the test holds; the cases where
  only the prefix matches are not stated.
- The model is silent when two keys tie under the key order. That happens
  for the same type and name with different columns, and `std::sort` may
  order such keys either way.
