/**
 * Start-up schema validation: comparing each expected table with the catalog's view of it,
 * listing the differences, and deciding whether to create, rebuild or merely warn.
 * Catalog queries are inputs here: a table's catalog is either an error, absent, or its
 * columns, generated-column names and index-existence answers.
 */
module Schema {
  import opened Wrappers

  // ---------------------------------------------------------------------------
  // normalizeType

  predicate IsUpper(c: char) { 'A' <= c <= 'Z' }

  /** The characters TrimSpace removes, restricted to ASCII. */
  predicate IsSpace(c: char) { c == ' ' || c == '\t' || c == '\n' || c == '\r' || c == '\U{B}' || c == '\U{C}' }

  function LowerChar(c: char): (l: char)
    ensures !IsUpper(l)
    ensures IsSpace(l) <==> IsSpace(c)
    ensures !IsUpper(c) ==> l == c
  {
    if IsUpper(c) then (c as int + 32) as char else c
  }

  /** strings.ToLower, on ASCII letters. */
  function Lower(s: string): (l: string)
    ensures |l| == |s|
    ensures forall i :: 0 <= i < |s| ==> l[i] == LowerChar(s[i])
  {
    if s == [] then [] else [LowerChar(s[0])] + Lower(s[1..])
  }

  lemma LowerIdempotent(s: string)
    ensures Lower(Lower(s)) == Lower(s)
  {
    var l := Lower(s);
    assert forall i :: 0 <= i < |l| ==> Lower(l)[i] == l[i];
  }

  /** The first index at or after i whose character is not a space, |s| when there is none. */
  function SkipSpaces(s: string, i: nat): (k: nat)
    requires i <= |s|
    ensures i <= k <= |s|
    ensures forall j :: i <= j < k ==> IsSpace(s[j])
    ensures k < |s| ==> !IsSpace(s[k])
    decreases |s| - i
  {
    if i < |s| && IsSpace(s[i]) then SkipSpaces(s, i + 1) else i
  }

  /** Scanning back from e while the character before is a space, but never below lo. */
  function BackOverSpaces(s: string, lo: nat, e: nat): (k: nat)
    requires lo <= e <= |s|
    ensures lo <= k <= e
    ensures forall j :: k <= j < e ==> IsSpace(s[j])
    ensures k > lo ==> !IsSpace(s[k - 1])
  {
    if e > lo && IsSpace(s[e - 1]) then BackOverSpaces(s, lo, e - 1) else e
  }

  /**
   * strings.TrimSpace, on ASCII whitespace: the result is the slice of s that starts at its
   * first non-space; only spaces come before and after it, and it neither starts nor ends with one.
   */
  function TrimSpace(s: string): (t: string)
    ensures t != [] ==> !IsSpace(t[0]) && !IsSpace(t[|t| - 1])
    ensures SkipSpaces(s, 0) + |t| <= |s| && t == s[SkipSpaces(s, 0)..SkipSpaces(s, 0) + |t|]
    ensures forall i :: 0 <= i < SkipSpaces(s, 0) ==> IsSpace(s[i])
    ensures forall i :: SkipSpaces(s, 0) + |t| <= i < |s| ==> IsSpace(s[i])
  {
    var start := SkipSpaces(s, 0);
    s[start..BackOverSpaces(s, start, |s|)]
  }

  /** An all-space text trims to nothing, and a text with a non-space character trims to a non-empty one. */
  lemma TrimSpaceEmptyIff(s: string)
    ensures TrimSpace(s) == [] <==> forall i :: 0 <= i < |s| ==> IsSpace(s[i])
  {
    var start := SkipSpaces(s, 0);
    if start < |s| {
      assert !IsSpace(s[start]);
      assert BackOverSpaces(s, start, |s|) > start;
    }
  }

  predicate HasPrefix(s: string, p: string) {
    |p| <= |s| && s[..|p|] == p
  }

  /** strings.Split(s, "(")[0]: everything before the first '('. */
  function BeforeParen(s: string): (r: string)
    ensures HasPrefix(s, r)
    ensures '(' !in r
    ensures |r| < |s| ==> s[|r|] == '('
  {
    if s == [] || s[0] == '(' then [] else [s[0]] + BeforeParen(s[1..])
  }

  /** The alias table; a lowered, trimmed name found here is replaced by its canonical spelling. */
  const TypeAliases: map<string, string> := map[
    "int8" := "bigint",
    "int4" := "integer",
    "float8" := "double precision",
    "float4" := "real",
    "bool" := "boolean",
    "timestamptz" := "timestamp with time zone",
    "timestamp" := "timestamp without time zone",
    "geography" := "geography",
    "geometry" := "geometry",
    "text" := "text",
    "varchar" := "character varying",
    "character" := "character"]

  predicate IsSpatial(t: string) {
    HasPrefix(t, "geography") || HasPrefix(t, "geometry")
  }

  /** Cutting at the first '(' keeps any prefix that has no '(' of its own. */
  lemma {:induction false} BeforeParenKeepsPrefix(s: string, p: string)
    requires HasPrefix(s, p) && '(' !in p
    ensures HasPrefix(BeforeParen(s), p)
  {
    if p != [] {
      assert s[0] == p[0];
      assert HasPrefix(s[1..], p[1..]);
      BeforeParenKeepsPrefix(s[1..], p[1..]);
    }
  }

  /** The spatial branch: the type is cut at its parameter list and stays spatial. */
  function SpatialBase(t: string): (r: string)
    requires IsSpatial(t)
    ensures r == BeforeParen(t)
    ensures HasPrefix(t, r) && '(' !in r && IsSpatial(r)
  {
    if HasPrefix(t, "geography") then
      BeforeParenKeepsPrefix(t, "geography");
      BeforeParen(t)
    else
      BeforeParenKeepsPrefix(t, "geometry");
      BeforeParen(t)
  }

  /** normalizeType: lower-case, trim, cut spatial types at their parameter list, then resolve aliases. */
  function NormalizeType(typ: string): (r: string)
    ensures var t := TrimSpace(Lower(typ));
            (IsSpatial(t) ==> r == BeforeParen(t) && IsSpatial(r))
            && (!IsSpatial(t) && t in TypeAliases ==> r == TypeAliases[t])
            && (!IsSpatial(t) && t !in TypeAliases ==> r == t)
  {
    var t := TrimSpace(Lower(typ));
    if IsSpatial(t) then SpatialBase(t)
    else if t in TypeAliases then TypeAliases[t]
    else t
  }

  /** Letter case does not matter to the comparison. */
  lemma NormalizeIgnoresCase(typ: string)
    ensures NormalizeType(Lower(typ)) == NormalizeType(typ)
  {
    LowerIdempotent(typ);
  }

  // ---------------------------------------------------------------------------
  // ValidateTableSchema

  datatype ColumnDef = ColumnDef(name: string, typ: string, nullable: bool)

  datatype TableSchema = TableSchema(name: string, columns: seq<ColumnDef>, indexes: seq<string>, isCache: bool)

  /**
   * The catalog's answers for an existing table: its columns in ordinal order, the names of
   * its generated columns (empty when that query fails), and for each index whose existence
   * check succeeded, whether it exists.
   */
  datatype ActualTable = ActualTable(columns: seq<ColumnDef>, generated: set<string>, indexExists: map<string, bool>)

  datatype Difference =
    | MissingColumn(name: string)
    | TypeMismatch(name: string, expected: string, actual: string)
    | NullableMismatch(name: string, expectedNullable: bool, actualNullable: bool)
    | ExtraColumn(name: string)
    | MissingIndex(name: string)

  datatype TableValidation = TableValidation(tableName: string, exists_: bool, matches: bool, differences: seq<Difference>)

  /** The actualColumns map: later rows of the same name replace earlier ones. */
  function ColumnMap(cols: seq<ColumnDef>): (m: map<string, ColumnDef>)
    ensures forall n :: n in m <==> exists c :: c in cols && c.name == n
    ensures forall n :: n in m ==> m[n] in cols && m[n].name == n
  {
    if cols == [] then map[]
    else
      var init := cols[..|cols| - 1];
      var last := cols[|cols| - 1];
      assert forall c :: c in cols <==> c in init || c == last;
      ColumnMap(init)[last.name := last]
  }

  function ColumnNames(cols: seq<ColumnDef>): (names: set<string>)
    ensures forall n :: n in names <==> exists c :: c in cols && c.name == n
  {
    set c | c in cols :: c.name
  }

  /** The differences one expected column contributes. */
  function ColumnDiff(c: ColumnDef, actual: map<string, ColumnDef>): seq<Difference> {
    if c.name !in actual then [MissingColumn(c.name)]
    else
      var a := actual[c.name];
      (if NormalizeType(c.typ) != NormalizeType(a.typ) then [TypeMismatch(c.name, NormalizeType(c.typ), NormalizeType(a.typ))] else [])
      + (if c.nullable != a.nullable then [NullableMismatch(c.name, c.nullable, a.nullable)] else [])
  }

  /** The expected column exists with the same normalised type and nullability. */
  predicate ColumnConforms(c: ColumnDef, actual: map<string, ColumnDef>) {
    c.name in actual && NormalizeType(c.typ) == NormalizeType(actual[c.name].typ) && c.nullable == actual[c.name].nullable
  }

  lemma ColumnDiffEmpty(c: ColumnDef, actual: map<string, ColumnDef>)
    ensures ColumnDiff(c, actual) == [] <==> ColumnConforms(c, actual)
  {
    if c.name in actual && !ColumnConforms(c, actual) {
      assert |ColumnDiff(c, actual)| > 0;
    }
  }

  function ColumnDiffs(expected: seq<ColumnDef>, actual: map<string, ColumnDef>): seq<Difference> {
    if expected == [] then []
    else ColumnDiffs(expected[..|expected| - 1], actual) + ColumnDiff(expected[|expected| - 1], actual)
  }

  lemma {:induction false} ColumnDiffsEmpty(expected: seq<ColumnDef>, actual: map<string, ColumnDef>)
    ensures ColumnDiffs(expected, actual) == [] <==> forall c :: c in expected ==> ColumnConforms(c, actual)
  {
    if expected != [] {
      var init := expected[..|expected| - 1];
      var last := expected[|expected| - 1];
      ColumnDiffsEmpty(init, actual);
      ColumnDiffEmpty(last, actual);
      assert forall c :: c in expected <==> c in init || c == last;
    }
  }

  /** An index counts as missing only when its existence check succeeded and said no. */
  predicate KnownMissing(n: string, indexExists: map<string, bool>) {
    n in indexExists && !indexExists[n]
  }

  function IndexDiffs(indexes: seq<string>, indexExists: map<string, bool>): seq<Difference> {
    if indexes == [] then []
    else
      var n := indexes[|indexes| - 1];
      IndexDiffs(indexes[..|indexes| - 1], indexExists) + (if KnownMissing(n, indexExists) then [MissingIndex(n)] else [])
  }

  lemma {:induction false} IndexDiffsEmpty(indexes: seq<string>, indexExists: map<string, bool>)
    ensures IndexDiffs(indexes, indexExists) == [] <==> forall n :: n in indexes ==> !KnownMissing(n, indexExists)
  {
    if indexes != [] {
      var init := indexes[..|indexes| - 1];
      IndexDiffsEmpty(init, indexExists);
      assert forall n :: n in indexes <==> n in init || n == indexes[|indexes| - 1];
    }
  }

  /** Actual columns that are neither expected nor generated. */
  function ExtraNames(actual: map<string, ColumnDef>, expectedNames: set<string>, generated: set<string>): (names: set<string>)
    ensures forall n :: n in names <==> n in actual && n !in expectedNames && n !in generated
  {
    set n | n in actual && n !in expectedNames && n !in generated
  }

  /** The extra-column differences name each extra column exactly once, in some order. */
  predicate ListsExtras(extras: seq<Difference>, names: set<string>) {
    |extras| == |names|
    && (forall i :: 0 <= i < |extras| ==> extras[i].ExtraColumn? && extras[i].name in names)
    && (forall n :: n in names ==> ExtraColumn(n) in extras)
  }

  function TableExtras(expected: TableSchema, table: ActualTable): set<string> {
    ExtraNames(ColumnMap(table.columns), ColumnNames(expected.columns), table.generated)
  }

  /** The table as the catalog sees it agrees with the expected schema. */
  predicate Conforms(expected: TableSchema, table: ActualTable) {
    (forall c :: c in expected.columns ==> ColumnConforms(c, ColumnMap(table.columns)))
    && TableExtras(expected, table) == {}
    && (forall n :: n in expected.indexes ==> !KnownMissing(n, table.indexExists))
  }

  /** The loop over the expected columns. */
  method CompareColumns(expected: seq<ColumnDef>, actual: map<string, ColumnDef>) returns (diffs: seq<Difference>)
    ensures diffs == ColumnDiffs(expected, actual)
    ensures diffs == [] <==> forall c :: c in expected ==> ColumnConforms(c, actual)
  {
    diffs := [];
    var i := 0;
    while i < |expected|
      invariant 0 <= i <= |expected|
      invariant diffs == ColumnDiffs(expected[..i], actual)
    {
      diffs := diffs + ColumnDiff(expected[i], actual);
      assert expected[..i + 1][..i] == expected[..i];
      i := i + 1;
    }
    assert expected[..i] == expected;
    ColumnDiffsEmpty(expected, actual);
  }

  /** The loop over the actual columns, visited in the map's (unspecified) order. */
  method FindExtraColumns(actual: map<string, ColumnDef>, expectedNames: set<string>, generated: set<string>)
    returns (extras: seq<Difference>)
    ensures ListsExtras(extras, ExtraNames(actual, expectedNames, generated))
  {
    var names := ExtraNames(actual, expectedNames, generated);
    var remaining := actual.Keys;
    ghost var done: set<string> := {};
    extras := [];
    while remaining != {}
      invariant remaining <= actual.Keys
      invariant done == names - remaining
      invariant ListsExtras(extras, done)
      decreases remaining
    {
      var n :| n in remaining;
      var isExtra := n !in expectedNames && n !in generated;
      ExtraStep(names, remaining, done, extras, n, isExtra);
      if isExtra {
        extras := extras + [ExtraColumn(n)];
        done := done + {n};
      }
      remaining := remaining - {n};
    }
  }

  /** One visit of the loop: an extra column is listed, any other is passed over. */
  lemma ExtraStep(names: set<string>, remaining: set<string>, done: set<string>, extras: seq<Difference>,
                  n: string, isExtra: bool)
    requires n in remaining
    requires done == names - remaining
    requires ListsExtras(extras, done)
    requires isExtra <==> n in names
    ensures isExtra ==> done + {n} == names - (remaining - {n}) && ListsExtras(extras + [ExtraColumn(n)], done + {n})
    ensures !isExtra ==> done == names - (remaining - {n})
  {
    if isExtra {
      ListsOneMore(extras, done, n);
    }
  }

  /** Listing one more, not yet listed, column keeps every column listed exactly once. */
  lemma ListsOneMore(extras: seq<Difference>, done: set<string>, n: string)
    requires ListsExtras(extras, done)
    requires n !in done
    ensures ListsExtras(extras + [ExtraColumn(n)], done + {n})
  {
    var more := extras + [ExtraColumn(n)];
    forall m | m in done + {n} ensures ExtraColumn(m) in more {
      if m != n {
        assert ExtraColumn(m) in extras;
      }
    }
  }

  /** The loop over the expected indexes; an index whose check failed is skipped. */
  method CheckIndexes(indexes: seq<string>, indexExists: map<string, bool>) returns (diffs: seq<Difference>)
    ensures diffs == IndexDiffs(indexes, indexExists)
    ensures diffs == [] <==> forall n :: n in indexes ==> !KnownMissing(n, indexExists)
  {
    diffs := [];
    var k := 0;
    while k < |indexes|
      invariant 0 <= k <= |indexes|
      invariant diffs == IndexDiffs(indexes[..k], indexExists)
    {
      var n := indexes[k];
      if n in indexExists && !indexExists[n] {
        diffs := diffs + [MissingIndex(n)];
      }
      assert indexes[..k + 1][..k] == indexes[..k];
      k := k + 1;
    }
    assert indexes[..k] == indexes;
    IndexDiffsEmpty(indexes, indexExists);
  }

  /** What ValidateTableSchema reports for an existing table. */
  predicate ReportsTable(expected: TableSchema, table: ActualTable, v: TableValidation) {
    var cd := ColumnDiffs(expected.columns, ColumnMap(table.columns));
    var id := IndexDiffs(expected.indexes, table.indexExists);
    v.tableName == expected.name && v.exists_
    && |cd| + |id| <= |v.differences|
    && v.differences[..|cd|] == cd
    && v.differences[|v.differences| - |id|..] == id
    && ListsExtras(v.differences[|cd|..|v.differences| - |id|], TableExtras(expected, table))
    && (v.matches <==> Conforms(expected, table))
  }

  /** The three loops' outputs, concatenated, make the report. */
  lemma ReportAssembled(expected: TableSchema, table: ActualTable, cd: seq<Difference>, extras: seq<Difference>, id: seq<Difference>)
    requires cd == ColumnDiffs(expected.columns, ColumnMap(table.columns))
    requires cd == [] <==> forall c :: c in expected.columns ==> ColumnConforms(c, ColumnMap(table.columns))
    requires ListsExtras(extras, TableExtras(expected, table))
    requires id == IndexDiffs(expected.indexes, table.indexExists)
    requires id == [] <==> forall n :: n in expected.indexes ==> !KnownMissing(n, table.indexExists)
    ensures ReportsTable(expected, table, TableValidation(expected.name, true, |cd + extras + id| == 0, cd + extras + id))
  {
    ThreePartSlices(cd, extras, id);
    ReportMatchesExactlyWhenConforms(expected, table, cd, extras, id);
  }

  /** The three parts of a concatenated report can be sliced back out of it. */
  lemma ThreePartSlices(cd: seq<Difference>, extras: seq<Difference>, id: seq<Difference>)
    ensures var all := cd + extras + id;
      && all[..|cd|] == cd && all[|all| - |id|..] == id && all[|cd|..|all| - |id|] == extras
  {
    var all := cd + extras + id;
    assert all == cd + (extras + id);
  }

  /** The report is empty exactly when the table conforms. */
  lemma ReportMatchesExactlyWhenConforms(expected: TableSchema, table: ActualTable, cd: seq<Difference>,
                                         extras: seq<Difference>, id: seq<Difference>)
    requires cd == [] <==> forall c :: c in expected.columns ==> ColumnConforms(c, ColumnMap(table.columns))
    requires ListsExtras(extras, TableExtras(expected, table))
    requires id == [] <==> forall n :: n in expected.indexes ==> !KnownMissing(n, table.indexExists)
    ensures |cd + extras + id| == 0 <==> Conforms(expected, table)
  {
    ListsNoneExactlyWhenNoExtras(extras, TableExtras(expected, table));
  }

  /** The extra-column list is empty exactly when there are no extra columns. */
  lemma ListsNoneExactlyWhenNoExtras(extras: seq<Difference>, names: set<string>)
    requires ListsExtras(extras, names)
    ensures extras == [] <==> names == {}
  {
    if names != {} {
      var n :| n in names;
      assert ExtraColumn(n) in extras;
    }
  }

  /**
   * ValidateTableSchema. A failing catalog query is an error; an absent table is reported as
   * not existing and not matching; otherwise the differences are those of the expected
   * columns in order, then the extra columns in map order, then the missing indexes, and the
   * table matches exactly when it conforms.
   */
  method ValidateTableSchema(expected: TableSchema, catalog: Result<Option<ActualTable>, string>)
    returns (r: Result<TableValidation, string>)
    ensures catalog.Err? <==> r.Err?
    ensures catalog == Ok(None) ==> r == Ok(TableValidation(expected.name, false, false, []))
    ensures catalog.Ok? && catalog.value.Some? ==> r.Ok? && ReportsTable(expected, catalog.value.value, r.value)
  {
    if catalog.Err? {
      return Err(catalog.error);
    }
    if catalog.value.None? {
      return Ok(TableValidation(expected.name, false, false, []));
    }
    var table := catalog.value.value;
    var actual := ColumnMap(table.columns);
    var cd := CompareColumns(expected.columns, actual);
    var extras := FindExtraColumns(actual, ColumnNames(expected.columns), table.generated);
    var id := CheckIndexes(expected.indexes, table.indexExists);
    ReportAssembled(expected, table, cd, extras, id);
    return Ok(TableValidation(expected.name, true, |cd + extras + id| == 0, cd + extras + id));
  }

  // ---------------------------------------------------------------------------
  // ValidateAndMigrateSchema

  datatype Action = Created | Recreated | Warning | Valid

  /** What happens to one table: absent tables are created; mismatched ones are rebuilt only if they are caches or a rebuild is forced. */
  function Decide(exists_: bool, matches: bool, isCache: bool, forceRebuild: bool): (a: Action)
    ensures a == Created <==> !exists_
    ensures a == Recreated <==> exists_ && !matches && (isCache || forceRebuild)
    ensures a == Warning <==> exists_ && !matches && !isCache && !forceRebuild
    ensures a == Valid <==> exists_ && matches
  {
    if !exists_ then Created
    else if !matches then (if isCache || forceRebuild then Recreated else Warning)
    else Valid
  }

  /** The tables createTableBySchema knows how to create. */
  const KnownTables: set<string> := {"activity_summaries", "activity_geometries", "point_samples", "favorite_segments", "segment_activity_matches"}

  /**
   * createTableBySchema: an unknown table name is an error; `fails` stands for the database
   * rejecting the DDL of a known table.
   */
  function CreateTableBySchema(name: string, fails: bool): (r: Result<(), string>)
    ensures r.Ok? <==> name in KnownTables && !fails
  {
    if name !in KnownTables then Err("unknown table schema: " + name)
    else if fails then Err("create failed")
    else Ok(())
  }

  /** The expected schemas' names and cache flags; only segment_activity_matches is a cache. */
  const ExpectedTables: seq<(string, bool)> := [
    ("activity_summaries", false),
    ("activity_geometries", false),
    ("point_samples", false),
    ("favorite_segments", false),
    ("segment_activity_matches", true)]

  /** Every expected table can be created, and without a forced rebuild only the cache table is ever dropped. */
  lemma ExpectedTablesSafe(forceRebuild: bool)
    ensures forall i :: 0 <= i < |ExpectedTables| ==> ExpectedTables[i].0 in KnownTables
    ensures forall i, e, m :: 0 <= i < |ExpectedTables| && Decide(e, m, ExpectedTables[i].1, false) == Recreated
              ==> ExpectedTables[i].0 == "segment_activity_matches"
  {
  }

  /** The action the decision takes for a table given its catalog, when validation succeeds. */
  function PlannedAction(s: TableSchema, catalog: Result<Option<ActualTable>, string>, forceRebuild: bool): Action
    requires catalog.Ok?
  {
    var exists_ := catalog.value.Some?;
    Decide(exists_, exists_ && Conforms(s, catalog.value.value), s.isCache, forceRebuild)
  }

  /** The DDL an action needs succeeds: creation for Created and Recreated, and the DROP before a rebuild. */
  predicate DdlSucceeds(s: TableSchema, a: Action, createFails: set<string>, dropFails: set<string>) {
    match a
    case Created => CreateTableBySchema(s.name, s.name in createFails).Ok?
    case Recreated => s.name !in dropFails && CreateTableBySchema(s.name, s.name in createFails).Ok?
    case _ => true
  }

  /**
   * ValidateAndMigrateSchema over the expected tables in order. `catalogs[i]` is what the
   * catalog says about `schemas[i]`; `createFails` and `dropFails` name the tables whose DDL the
   * database rejects. The first failure aborts; the actions returned are those completed.
   */
  method ValidateAndMigrateSchema(schemas: seq<TableSchema>, catalogs: seq<Result<Option<ActualTable>, string>>,
                                  forceRebuild: bool, createFails: set<string>, dropFails: set<string>)
    returns (actions: seq<Action>, err: Option<string>)
    requires |catalogs| == |schemas|
    ensures |actions| <= |schemas|
    ensures forall i :: 0 <= i < |actions| ==> catalogs[i].Ok? && actions[i] == PlannedAction(schemas[i], catalogs[i], forceRebuild)
                                               && DdlSucceeds(schemas[i], actions[i], createFails, dropFails)
    ensures err.None? <==> |actions| == |schemas|
    ensures err.Some? ==> var i := |actions|;
                          catalogs[i].Err?
                          || !DdlSucceeds(schemas[i], PlannedAction(schemas[i], catalogs[i], forceRebuild), createFails, dropFails)
  {
    actions := [];
    var i := 0;
    while i < |schemas|
      invariant 0 <= i <= |schemas| && |actions| == i
      invariant forall j :: 0 <= j < i ==> catalogs[j].Ok? && actions[j] == PlannedAction(schemas[j], catalogs[j], forceRebuild)
                                           && DdlSucceeds(schemas[j], actions[j], createFails, dropFails)
    {
      var s := schemas[i];
      var v := ValidateTableSchema(s, catalogs[i]);
      if v.Err? {
        return actions, Some("failed to validate table " + s.name + ": " + v.error);
      }
      var a := Decide(v.value.exists_, v.value.matches, s.isCache, forceRebuild);
      assert a == PlannedAction(s, catalogs[i], forceRebuild);
      if a == Created {
        var c := CreateTableBySchema(s.name, s.name in createFails);
        if c.Err? {
          return actions, Some("failed to create table " + s.name + ": " + c.error);
        }
      } else if a == Recreated {
        if s.name in dropFails {
          return actions, Some("failed to drop table " + s.name);
        }
        var c := CreateTableBySchema(s.name, s.name in createFails);
        if c.Err? {
          return actions, Some("failed to recreate table " + s.name + ": " + c.error);
        }
      }
      actions := actions + [a];
      i := i + 1;
    }
    return actions, None;
  }
}
