/** The schema tool: the rows the introspection queries return, turned into
    table records, grouped foreign keys and Markdown. The queries themselves
    run in the database; their rows, or the error they raised, are
    parameters. Each rendering is a list of the pieces the tool appends to
    its output, every piece but the empty line ending in a newline. */
module Schemas {
  import opened Wrappers
  import opened PyStrings
  import opened Dicts
  import opened Sequences

  // ---------------------------------------------------------------------------
  // Records (get_table_info)
  // ---------------------------------------------------------------------------

  /** A row of the column query: name, data type, character maximum length
      (NULL for non-character types), default expression (NULL when none)
      and the `is_nullable` text. */
  datatype ColumnRow = ColumnRow(
    name: string, dataType: string, maxLength: Option<nat>, default: Option<string>, isNullable: string)

  /** A column record. */
  datatype Column = Column(
    name: string, dataType: string, maxLength: Option<nat>, default: Option<string>, nullable: bool)

  /** A row of the constraint query, also kept as the constraint record; the
      referenced table and column come from a left join and may be NULL. */
  datatype Constraint = Constraint(
    name: string, kind: string, column: string, foreignTable: Option<string>, foreignColumn: Option<string>)

  datatype Index = Index(name: string, definition: string)

  /** What the four queries of `get_table_info` return. */
  datatype TableRows = TableRows(
    columns: seq<ColumnRow>, constraints: seq<Constraint>, indexes: seq<Index>, rowCount: nat)

  datatype TableInfo = TableInfo(
    name: string, rowCount: nat, columns: seq<Column>, constraints: seq<Constraint>, indexes: seq<Index>)

  function ColumnOf(row: ColumnRow): Column {
    Column(row.name, row.dataType, row.maxLength, row.default, row.isNullable == "YES")
  }

  /** `get_table_info(table_name)` once its queries have answered. */
  function GetTableInfo(name: string, rows: TableRows): (r: TableInfo)
    ensures |r.columns| == |rows.columns|
    ensures forall i :: 0 <= i < |r.columns| ==> r.columns[i] == ColumnOf(rows.columns[i])
  {
    var columns := seq(|rows.columns|, i requires 0 <= i < |rows.columns| => ColumnOf(rows.columns[i]));
    TableInfo(name, rows.rowCount, columns, rows.constraints, rows.indexes)
  }

  /** The row a column record came from, when `is_nullable` was `YES` or `NO`. */
  function ColumnRowOf(c: Column): ColumnRow {
    ColumnRow(c.name, c.dataType, c.maxLength, c.default, if c.nullable then "YES" else "NO")
  }

  /** A column record keeps everything of its row: `nullable` holds exactly
      when `is_nullable` is `YES`, and the row comes back from the record
      whenever `is_nullable` is one of the two texts the catalogue uses. */
  lemma ColumnRecordFaithful(row: ColumnRow)
    ensures ColumnOf(row).nullable <==> row.isNullable == "YES"
    ensures row.isNullable == "YES" || row.isNullable == "NO" ==> ColumnRowOf(ColumnOf(row)) == row
  {
  }

  // ---------------------------------------------------------------------------
  // Relationships (get_table_relationships)
  // ---------------------------------------------------------------------------

  /** A row of the foreign-key query. */
  datatype ForeignKeyRow = ForeignKeyRow(table: string, column: string, foreignTable: string, foreignColumn: string)

  datatype Relation = Relation(column: string, referencesTable: string, referencesColumn: string)

  function RelationOf(row: ForeignKeyRow): Relation {
    Relation(row.column, row.foreignTable, row.foreignColumn)
  }

  /** The grouping loop: each row's relation is appended to its table's list,
      which is created empty the first time the table is seen. */
  function GroupRelationships(rows: seq<ForeignKeyRow>): (r: Dict<seq<Relation>>)
    ensures DistinctKeys(r)
    decreases |rows|
  {
    if |rows| == 0 then []
    else
      var groups := GroupRelationships(rows[..|rows| - 1]);
      var last := rows[|rows| - 1];
      Set(groups, last.table, Get(groups, last.table).GetOr([]) + [RelationOf(last)])
  }

  /** `[relation(row) for row in rows if row.table == t]` */
  function RelationsOf(rows: seq<ForeignKeyRow>, t: string): seq<Relation>
    decreases |rows|
  {
    if |rows| == 0 then []
    else
      var last := rows[|rows| - 1];
      RelationsOf(rows[..|rows| - 1], t) + (if last.table == t then [RelationOf(last)] else [])
  }

  /** Under each table the grouping holds exactly that table's relations in
      row order, and a table without foreign-key rows is absent. */
  lemma {:induction false} GroupLookup(rows: seq<ForeignKeyRow>, t: string)
    ensures Get(GroupRelationships(rows), t)
         == if RelationsOf(rows, t) == [] then None else Some(RelationsOf(rows, t))
    decreases |rows|
  {
    if |rows| > 0 {
      var init, last := rows[..|rows| - 1], rows[|rows| - 1];
      var groups := GroupRelationships(init);
      var grown := Get(groups, last.table).GetOr([]) + [RelationOf(last)];
      var before := RelationsOf(init, t);
      assert GroupRelationships(rows) == Set(groups, last.table, grown);
      GroupLookup(init, t);
      SetGet(groups, last.table, grown, t);
      if last.table == t {
        assert RelationsOf(rows, t) == before + [RelationOf(last)];
        assert Get(groups, t).GetOr([]) == before;
      } else {
        assert RelationsOf(rows, t) == before;
      }
    }
  }

  /** A table is a key of the grouping exactly when some row names it. */
  lemma GroupKeys(rows: seq<ForeignKeyRow>, t: string)
    ensures t in Keys(GroupRelationships(rows)) <==> exists i :: 0 <= i < |rows| && rows[i].table == t
  {
    GroupLookup(rows, t);
    RelationsOfEmpty(rows, t);
  }

  /** A table has no relations exactly when no row names it. */
  lemma {:induction false} RelationsOfEmpty(rows: seq<ForeignKeyRow>, t: string)
    ensures RelationsOf(rows, t) == [] <==> forall i :: 0 <= i < |rows| ==> rows[i].table != t
    decreases |rows|
  {
    if |rows| > 0 {
      var init := rows[..|rows| - 1];
      RelationsOfEmpty(init, t);
      assert forall i :: 0 <= i < |init| ==> init[i] == rows[i];
    }
  }

  /** The number of relations filed in a grouping. */
  function Total(groups: Dict<seq<Relation>>): nat
    decreases |groups|
  {
    if |groups| == 0 then 0 else |groups[0].1| + Total(groups[1..])
  }

  /** Every list in a grouping is non-empty. */
  predicate NoEmptyLists(groups: Dict<seq<Relation>>) {
    forall i :: 0 <= i < |groups| ==> |groups[i].1| > 0
  }

  /** Appending one relation under a key files one more relation. */
  lemma {:induction false} AppendCounts(groups: Dict<seq<Relation>>, k: string, x: Relation)
    ensures Total(Set(groups, k, Get(groups, k).GetOr([]) + [x])) == Total(groups) + 1
    decreases |groups|
  {
    if |groups| > 0 {
      var v := Get(groups, k).GetOr([]) + [x];
      var rest := groups[1..];
      if groups[0].0 != k {
        assert Get(groups, k) == Get(rest, k);
        AppendCounts(rest, k, x);
        var r := Set(rest, k, v);
        assert Set(groups, k, v) == [groups[0]] + r;
        ConsTail([groups[0]] + r);
        assert ([groups[0]] + r)[1..] == r;
      } else {
        assert v == groups[0].1 + [x];
        assert Set(groups, k, v) == [(k, v)] + rest;
        assert ([(k, v)] + rest)[1..] == rest;
      }
    }
  }

  /** Setting a non-empty list leaves no list empty. */
  lemma {:induction false} SetKeepsLists(groups: Dict<seq<Relation>>, k: string, v: seq<Relation>)
    requires NoEmptyLists(groups) && |v| > 0
    ensures NoEmptyLists(Set(groups, k, v))
    decreases |groups|
  {
    if |groups| > 0 && groups[0].0 != k {
      var rest := groups[1..];
      assert NoEmptyLists(rest) by {
        assert forall i :: 0 <= i < |rest| ==> rest[i] == groups[i + 1];
      }
      SetKeepsLists(rest, k, v);
      var r := Set(rest, k, v);
      assert Set(groups, k, v) == [groups[0]] + r;
    } else if |groups| > 0 {
      var rest := groups[1..];
      assert Set(groups, k, v) == [(k, v)] + rest;
      assert forall i :: 0 < i < |groups| ==> ([(k, v)] + rest)[i] == groups[i];
    }
  }

  /** Every foreign-key row is filed exactly once, and no table is listed
      with an empty list. */
  lemma {:induction false} GroupCounts(rows: seq<ForeignKeyRow>)
    ensures Total(GroupRelationships(rows)) == |rows|
    ensures NoEmptyLists(GroupRelationships(rows))
    decreases |rows|
  {
    if |rows| > 0 {
      var init, last := rows[..|rows| - 1], rows[|rows| - 1];
      var groups := GroupRelationships(init);
      GroupCounts(init);
      assert GroupRelationships(rows) == Set(groups, last.table, Get(groups, last.table).GetOr([]) + [RelationOf(last)]);
      AppendCounts(groups, last.table, RelationOf(last));
      SetKeepsLists(groups, last.table, Get(groups, last.table).GetOr([]) + [RelationOf(last)]);
    }
  }

  // ---------------------------------------------------------------------------
  // format_table_schema
  // ---------------------------------------------------------------------------

  /** `if x:` for a value that is NULL or text. */
  predicate Present(x: Option<string>) {
    x.Some? && |x.value| > 0
  }

  /** The type cell: the data type, followed by the maximum length in
      parentheses when there is a non-zero one. */
  function TypeInfo(c: Column): string {
    if c.maxLength.Some? && c.maxLength.value != 0 then
      c.dataType + "(" + NatToString(c.maxLength.value) + ")"
    else c.dataType
  }

  function YesNo(b: bool): string {
    if b then "YES" else "NO"
  }

  function ColumnLine(c: Column): string {
    "| " + (c.name + " | " + TypeInfo(c) + " | " + YesNo(c.nullable) + " | "
            + c.default.GetOr("") + " | |\n")
  }

  /** The References cell: `table(column)` when both are present. */
  function References(k: Constraint): string {
    if Present(k.foreignTable) && Present(k.foreignColumn) then
      k.foreignTable.value + "(" + k.foreignColumn.value + ")"
    else ""
  }

  function ConstraintLine(k: Constraint): string {
    "| " + (k.name + " | " + k.kind + " | " + k.column + " | " + References(k) + " |\n")
  }

  function IndexLine(x: Index): string {
    "| " + (x.name + " | " + x.definition + " |\n")
  }

  const ColumnsHeading := "## Columns\n"
  const ConstraintsHeading := "## Constraints\n"
  const IndexesHeading := "## Indexes\n"

  function ColumnLines(cs: seq<Column>): (r: seq<string>)
    ensures |r| == |cs|
    ensures forall i :: 0 <= i < |r| ==> r[i] == ColumnLine(cs[i])
  {
    seq(|cs|, i requires 0 <= i < |cs| => ColumnLine(cs[i]))
  }

  function ConstraintLines(ks: seq<Constraint>): (r: seq<string>)
    ensures |r| == |ks|
    ensures forall i :: 0 <= i < |r| ==> r[i] == ConstraintLine(ks[i])
  {
    seq(|ks|, i requires 0 <= i < |ks| => ConstraintLine(ks[i]))
  }

  function IndexLines(xs: seq<Index>): (r: seq<string>)
    ensures |r| == |xs|
    ensures forall i :: 0 <= i < |r| ==> r[i] == IndexLine(xs[i])
  {
    seq(|xs|, i requires 0 <= i < |xs| => IndexLine(xs[i]))
  }

  /** The fixed head of a table description, up to the columns table rule. */
  function SchemaHead(name: string, rowCount: nat): (r: seq<string>)
    ensures |r| == 8
  {
    ["# Table: " + name + "\n", "\n", "Row count: " + NatToString(rowCount) + "\n", "\n",
     ColumnsHeading, "\n",
     "| Column | Type | Nullable | Default | Description |\n",
     "|--------|------|----------|---------|-------------|\n"]
  }

  function ConstraintsSection(ks: seq<Constraint>): seq<string> {
    if |ks| == 0 then []
    else
      ["\n", ConstraintsHeading, "\n", "| Name | Type | Column | References |\n",
       "|------|------|--------|------------|\n"] + ConstraintLines(ks)
  }

  function IndexesSection(xs: seq<Index>): seq<string> {
    if |xs| == 0 then []
    else
      ["\n", IndexesHeading, "\n", "| Name | Definition |\n", "|------|------------|\n"]
      + IndexLines(xs)
  }

  /** The pieces of the Markdown description of a table. */
  function SchemaLines(name: string, info: TableInfo): seq<string> {
    SchemaHead(name, info.rowCount)
    + (ColumnLines(info.columns) + (ConstraintsSection(info.constraints) + IndexesSection(info.indexes)))
  }

  /** `"".join(pieces)` */
  function Concat(pieces: seq<string>): string
    decreases |pieces|
  {
    if |pieces| == 0 then "" else pieces[0] + Concat(pieces[1..])
  }

  /** `format_table_schema(table_name)`, given what the queries of
      `get_table_info` returned or the error they raised. */
  function FormatTableSchema(name: string, fetched: Result<TableRows, string>): string {
    match fetched
    case Err(e) => "Error retrieving schema for table '" + name + "': " + e
    case Ok(rows) => Concat(SchemaLines(name, GetTableInfo(name, rows)))
  }

  /** A description opens with the table's title line and an error names the
      table; the two are told apart by their first character. */
  lemma TableSchemaOpens(name: string, fetched: Result<TableRows, string>)
    ensures fetched.Ok? ==> StartsWith(FormatTableSchema(name, fetched), "# Table: " + name + "\n")
    ensures fetched.Err? ==>
      FormatTableSchema(name, fetched) == "Error retrieving schema for table '" + name + "': " + fetched.error
    ensures |FormatTableSchema(name, fetched)| > 0 && (FormatTableSchema(name, fetched)[0] == '#' <==> fetched.Ok?)
  {
    if fetched.Ok? {
      var info := GetTableInfo(name, fetched.value);
      var lines := SchemaLines(name, info);
      var title := "# Table: " + name + "\n";
      assert lines[0] == title;
      var out := title + Concat(lines[1..]);
      assert FormatTableSchema(name, fetched) == out;
      assert out[..|title|] == title;
      assert out[0] == '#';
    }
  }

  /** One table line per column, in column order, right after the head. */
  lemma ColumnLinesPlaced(name: string, info: TableInfo)
    ensures |SchemaLines(name, info)| >= 8 + |info.columns|
    ensures forall i :: 0 <= i < |info.columns| ==> SchemaLines(name, info)[8 + i] == ColumnLine(info.columns[i])
  {
    var head, cols := SchemaHead(name, info.rowCount), ColumnLines(info.columns);
    var rest := ConstraintsSection(info.constraints) + IndexesSection(info.indexes);
    forall i | 0 <= i < |info.columns|
      ensures SchemaLines(name, info)[8 + i] == ColumnLine(info.columns[i])
    {
      AfterPrefix(head, cols + rest, i);
      assert (cols + rest)[i] == cols[i];
    }
  }

  /** The type cell carries a length suffix exactly when the maximum length
      is present and non-zero, and always starts with the data type. */
  lemma TypeInfoSuffix(c: Column)
    ensures StartsWith(TypeInfo(c), c.dataType)
    ensures |TypeInfo(c)| > |c.dataType| <==> c.maxLength.Some? && c.maxLength.value != 0
  {
    var t := TypeInfo(c);
    assert t[..|c.dataType|] == c.dataType;
  }

  /** The nullable cell reads `YES` exactly when the catalogue said `YES`. */
  lemma NullableCell(row: ColumnRow)
    ensures YesNo(ColumnOf(row).nullable) == "YES" <==> row.isNullable == "YES"
    ensures YesNo(ColumnOf(row).nullable) == "YES" || YesNo(ColumnOf(row).nullable) == "NO"
  {
  }

  /** The References cell is filled exactly when both the referenced table
      and column are present. */
  lemma ReferencesFilled(k: Constraint)
    ensures |References(k)| > 0 <==> Present(k.foreignTable) && Present(k.foreignColumn)
  {
  }

  /** The Columns heading is always there; the Constraints and Indexes
      headings appear exactly when there are constraints, resp. indexes. */
  lemma SectionsShown(name: string, info: TableInfo)
    ensures ColumnsHeading in SchemaLines(name, info)
    ensures ConstraintsHeading in SchemaLines(name, info) <==> |info.constraints| > 0
    ensures IndexesHeading in SchemaLines(name, info) <==> |info.indexes| > 0
  {
    var head, cols := SchemaHead(name, info.rowCount), ColumnLines(info.columns);
    var ks, xs := ConstraintsSection(info.constraints), IndexesSection(info.indexes);
    var lines := SchemaLines(name, info);
    InFour(head, cols, ks, xs, ColumnsHeading);
    InFour(head, cols, ks, xs, ConstraintsHeading);
    InFour(head, cols, ks, xs, IndexesHeading);
    assert head[4] == ColumnsHeading;
    HeadLacksSections(name, info.rowCount);
    ColumnLinesAreRows(info.columns);
    ConstraintsSectionHeadings(info.constraints);
    IndexesSectionHeadings(info.indexes);
  }

  lemma ConstraintsSectionHeadings(ks: seq<Constraint>)
    ensures ConstraintsHeading in ConstraintsSection(ks) <==> |ks| > 0
    ensures IndexesHeading !in ConstraintsSection(ks)
  {
    if |ks| > 0 {
      var fixed := ["\n", ConstraintsHeading, "\n", "| Name | Type | Column | References |\n",
                    "|------|------|--------|------------|\n"];
      var lines := ConstraintLines(ks);
      assert ConstraintsSection(ks) == fixed + lines;
      assert ConstraintsSection(ks)[1] == ConstraintsHeading;
      assert IndexesHeading[3] == 'I' && ConstraintsHeading[3] == 'C';
      assert IndexesHeading !in fixed;
      forall i | 0 <= i < |lines|
        ensures |lines[i]| > 0 && lines[i][0] == '|'
      {
      }
      TableLinesLackHeadings(lines);
    }
  }

  lemma IndexesSectionHeadings(xs: seq<Index>)
    ensures IndexesHeading in IndexesSection(xs) <==> |xs| > 0
    ensures ConstraintsHeading !in IndexesSection(xs)
  {
    if |xs| > 0 {
      var fixed := ["\n", IndexesHeading, "\n", "| Name | Definition |\n", "|------|------------|\n"];
      var lines := IndexLines(xs);
      assert IndexesSection(xs) == fixed + lines;
      assert IndexesSection(xs)[1] == IndexesHeading;
      assert IndexesHeading[3] == 'I' && ConstraintsHeading[3] == 'C';
      assert ConstraintsHeading !in fixed;
      forall i | 0 <= i < |lines|
        ensures |lines[i]| > 0 && lines[i][0] == '|'
      {
      }
      TableLinesLackHeadings(lines);
    }
  }

  /** Column lines are table rows. */
  lemma ColumnLinesAreRows(cs: seq<Column>)
    ensures ConstraintsHeading !in ColumnLines(cs) && IndexesHeading !in ColumnLines(cs)
  {
    var lines := ColumnLines(cs);
    forall i | 0 <= i < |lines|
      ensures |lines[i]| > 0 && lines[i][0] == '|'
    {
    }
    TableLinesLackHeadings(lines);
  }

  /** The fixed head holds neither later heading. */
  lemma HeadLacksSections(name: string, rowCount: nat)
    ensures ConstraintsHeading !in SchemaHead(name, rowCount)
    ensures IndexesHeading !in SchemaHead(name, rowCount)
  {
    var head := SchemaHead(name, rowCount);
    forall i | 0 <= i < 8
      ensures head[i] != ConstraintsHeading && head[i] != IndexesHeading
    {
      if i == 0 {
        assert head[0][2] == 'T';
      } else if i == 2 {
        assert head[2][0] == 'R';
      }
    }
  }

  /** A table row is never a heading: it starts with a bar. */
  lemma TableLinesLackHeadings(lines: seq<string>)
    requires forall i :: 0 <= i < |lines| ==> |lines[i]| > 0 && lines[i][0] == '|'
    ensures ConstraintsHeading !in lines && IndexesHeading !in lines && ColumnsHeading !in lines
  {
  }

  // ---------------------------------------------------------------------------
  // generate_schema_summary
  // ---------------------------------------------------------------------------

  function TableLine(table: string, rows: nat): string {
    "- " + ("**" + table + "** (" + NatToString(rows) + " rows)\n")
  }

  function RelationHeading(table: string): string {
    "### " + table + "\n"
  }

  function RelationLine(table: string, rel: Relation): string {
    "- " + (table + "." + rel.column + " \U{2192} " + rel.referencesTable + "." + rel.referencesColumn + "\n")
  }

  function RelationLines(table: string, rels: seq<Relation>): (r: seq<string>)
    ensures |r| == |rels|
    ensures forall i :: 0 <= i < |r| ==> r[i] == RelationLine(table, rels[i])
  {
    seq(|rels|, i requires 0 <= i < |rels| => RelationLine(table, rels[i]))
  }

  /** The relationships part: for every table with a non-empty list, in the
      grouping's order, its heading, an empty line and one arrow per relation. */
  function RelationBlocks(groups: Dict<seq<Relation>>): seq<string>
    decreases |groups|
  {
    if |groups| == 0 then []
    else
      var (table, rels) := groups[0];
      (if |rels| > 0 then [RelationHeading(table), "\n"] + RelationLines(table, rels) else [])
      + RelationBlocks(groups[1..])
  }

  /** The row counts of the tables, asked for one table after the other; the
      first failure ends the loop. */
  function RowCounts(tables: seq<string>, rowCount: string -> Result<nat, string>): (r: Result<seq<nat>, string>)
    ensures r.Ok? ==> |r.value| == |tables|
    decreases |tables|
  {
    if |tables| == 0 then Ok([])
    else
      match rowCount(tables[0])
      case Err(e) => Err(e)
      case Ok(n) =>
        var rest := RowCounts(tables[1..], rowCount);
        if rest.Err? then rest else Ok([n] + rest.value)
  }

  function SummaryHead(tableCount: nat): (r: seq<string>)
    ensures |r| == 4
  {
    ["# Database Schema Summary\n", "\n", "## Tables (" + NatToString(tableCount) + ")\n", "\n"]
  }

  const RelationshipsHead := ["\n", "## Relationships\n", "\n"]

  function TableLines(tables: seq<string>, counts: seq<nat>): (r: seq<string>)
    requires |counts| == |tables|
    ensures |r| == |tables|
    ensures forall i :: 0 <= i < |r| ==> r[i] == TableLine(tables[i], counts[i])
  {
    seq(|tables|, i requires 0 <= i < |tables| => TableLine(tables[i], counts[i]))
  }

  /** The lines of a summary whose queries all answered. */
  function SummaryLines(tables: seq<string>, counts: seq<nat>, groups: Dict<seq<Relation>>): seq<string>
    requires |counts| == |tables|
  {
    SummaryHead(|tables|) + (TableLines(tables, counts) + (RelationshipsHead + RelationBlocks(groups)))
  }

  const SummaryError := "Error generating schema summary: "

  /** `generate_schema_summary()`, given the table list, the foreign-key rows
      and, per table, the row count `get_table_info` reports or the error it
      raised. The list and the foreign keys are fetched first, in that order. */
  function GenerateSchemaSummary(
    tables: Result<seq<string>, string>,
    foreignKeys: Result<seq<ForeignKeyRow>, string>,
    rowCount: string -> Result<nat, string>): string
  {
    if tables.Err? then SummaryError + tables.error
    else if foreignKeys.Err? then SummaryError + foreignKeys.error
    else
      var counts := RowCounts(tables.value, rowCount);
      if counts.Err? then SummaryError + counts.error
      else Concat(SummaryLines(tables.value, counts.value, GroupRelationships(foreignKeys.value)))
  }

  /** The row counts are collected exactly when every table answers, and then
      are the answers in table order; otherwise the error is that of the
      first table that failed. */
  lemma {:induction false} RowCountsAnswer(tables: seq<string>, rowCount: string -> Result<nat, string>)
    ensures RowCounts(tables, rowCount).Ok? <==> forall i :: 0 <= i < |tables| ==> rowCount(tables[i]).Ok?
    ensures RowCounts(tables, rowCount).Ok? ==>
      forall i :: 0 <= i < |tables| ==> RowCounts(tables, rowCount).value[i] == rowCount(tables[i]).value
    ensures RowCounts(tables, rowCount).Err? ==>
      exists i :: 0 <= i < |tables| && rowCount(tables[i]) == Err(RowCounts(tables, rowCount).error)
        && forall j :: 0 <= j < i ==> rowCount(tables[j]).Ok?
    decreases |tables|
  {
    if |tables| > 0 {
      var rest := tables[1..];
      RowCountsAnswer(rest, rowCount);
      assert forall i :: 0 < i < |tables| ==> tables[i] == rest[i - 1];
      var r := RowCounts(tables, rowCount);
      if r.Err? && rowCount(tables[0]).Ok? {
        var i :| 0 <= i < |rest| && rowCount(rest[i]) == Err(r.error)
          && forall j :: 0 <= j < i ==> rowCount(rest[j]).Ok?;
        assert rowCount(tables[i + 1]) == Err(r.error);
        assert forall j :: 0 <= j < i + 1 ==> rowCount(tables[j]).Ok? by {
          forall j | 0 <= j < i + 1
            ensures rowCount(tables[j]).Ok?
          {
            if j > 0 {
              assert tables[j] == rest[j - 1];
            }
          }
        }
      }
      if r.Ok? {
        assert rowCount(tables[0]).Ok?;
      }
    }
  }

  /** Which error the summary reports: the table list's, else the foreign
      keys', else the first failing table's; when nothing fails the text is
      the summary itself. */
  lemma SummaryErrors(
    tables: Result<seq<string>, string>,
    foreignKeys: Result<seq<ForeignKeyRow>, string>,
    rowCount: string -> Result<nat, string>)
    ensures tables.Err? ==> GenerateSchemaSummary(tables, foreignKeys, rowCount) == SummaryError + tables.error
    ensures tables.Ok? && foreignKeys.Err? ==>
      GenerateSchemaSummary(tables, foreignKeys, rowCount) == SummaryError + foreignKeys.error
    ensures tables.Ok? && foreignKeys.Ok? && (exists i :: 0 <= i < |tables.value| && rowCount(tables.value[i]).Err?) ==>
      exists i :: 0 <= i < |tables.value| && rowCount(tables.value[i]).Err?
        && GenerateSchemaSummary(tables, foreignKeys, rowCount) == SummaryError + rowCount(tables.value[i]).error
        && forall j :: 0 <= j < i ==> rowCount(tables.value[j]).Ok?
    ensures tables.Ok? && foreignKeys.Ok? && (forall i :: 0 <= i < |tables.value| ==> rowCount(tables.value[i]).Ok?) ==>
      GenerateSchemaSummary(tables, foreignKeys, rowCount)
        == Concat(SummaryLines(tables.value, seq(|tables.value|, i requires 0 <= i < |tables.value| => rowCount(tables.value[i]).value),
                               GroupRelationships(foreignKeys.value)))
  {
    if tables.Ok? && foreignKeys.Ok? {
      var ts := tables.value;
      RowCountsAnswer(ts, rowCount);
      var counts := RowCounts(ts, rowCount);
      if counts.Ok? {
        assert counts.value == seq(|ts|, i requires 0 <= i < |ts| => rowCount(ts[i]).value);
      }
    }
  }

  /** A relationships heading for a table is there exactly when the grouping
      lists that table with a non-empty list. */
  lemma {:induction false} BlocksHeading(groups: Dict<seq<Relation>>, t: string)
    ensures RelationHeading(t) in RelationBlocks(groups)
        <==> exists i :: 0 <= i < |groups| && groups[i].0 == t && |groups[i].1| > 0
    decreases |groups|
  {
    if |groups| > 0 {
      var (table, rels) := groups[0];
      var rest := groups[1..];
      BlocksHeading(rest, t);
      assert forall i :: 0 < i < |groups| ==> groups[i] == rest[i - 1];
      if |rels| > 0 {
        var block := [RelationHeading(table), "\n"] + RelationLines(table, rels);
        assert RelationBlocks(groups) == block + RelationBlocks(rest);
        HeadingsDiffer(table, t);
        assert RelationHeading(t) != "\n";
        ArrowsAreNotHeadings(table, rels, t);
      }
    }
  }

  lemma HeadingsDiffer(a: string, b: string)
    ensures RelationHeading(a) == RelationHeading(b) <==> a == b
  {
    if RelationHeading(a) == RelationHeading(b) {
      assert a == RelationHeading(a)[4..|RelationHeading(a)| - 1];
      assert b == RelationHeading(b)[4..|RelationHeading(b)| - 1];
    }
  }

  lemma ArrowsAreNotHeadings(table: string, rels: seq<Relation>, t: string)
    ensures RelationHeading(t) !in RelationLines(table, rels)
  {
    forall i | 0 <= i < |rels|
      ensures RelationLines(table, rels)[i] != RelationHeading(t)
    {
      var r := rels[i];
      assert RelationLines(table, rels)[i][0] == '-';
      assert RelationHeading(t)[0] == '#';
    }
  }

  /** Only the relationships part holds `### ` headings. */
  lemma OnlyBlocksHaveHeadings(tables: seq<string>, counts: seq<nat>, t: string)
    requires |counts| == |tables|
    ensures RelationHeading(t) !in SummaryHead(|tables|)
    ensures RelationHeading(t) !in TableLines(tables, counts)
    ensures RelationHeading(t) !in RelationshipsHead
  {
    var h := RelationHeading(t);
    var head := SummaryHead(|tables|);
    assert h[0] == '#' && h[1] == '#' && h[2] == '#';
    assert head[0][1] == ' ' && head[2][2] == ' ' && RelationshipsHead[1][2] == ' ';
    forall i | 0 <= i < |tables|
      ensures TableLines(tables, counts)[i] != h
    {
      assert TableLines(tables, counts)[i][0] == '-';
    }
  }

  /** In a grouping with no empty list, the tables with a heading are the keys. */
  lemma HeadedAreKeys(groups: Dict<seq<Relation>>, t: string)
    requires NoEmptyLists(groups)
    ensures (exists i :: 0 <= i < |groups| && groups[i].0 == t && |groups[i].1| > 0) <==> t in Keys(groups)
  {
    if t in Keys(groups) {
      var i :| 0 <= i < |groups| && Keys(groups)[i] == t;
      assert groups[i].0 == t && |groups[i].1| > 0;
    }
  }

  /** The summary carries a relationships heading for a table exactly when
      some foreign-key row belongs to that table. */
  lemma SummaryHeading(tables: seq<string>, counts: seq<nat>, rows: seq<ForeignKeyRow>, t: string)
    requires |counts| == |tables|
    ensures RelationHeading(t) in SummaryLines(tables, counts, GroupRelationships(rows))
        <==> exists i :: 0 <= i < |rows| && rows[i].table == t
  {
    var groups := GroupRelationships(rows);
    InFour(SummaryHead(|tables|), TableLines(tables, counts), RelationshipsHead, RelationBlocks(groups), RelationHeading(t));
    OnlyBlocksHaveHeadings(tables, counts, t);
    BlocksHeading(groups, t);
    GroupCounts(rows);
    HeadedAreKeys(groups, t);
    GroupKeys(rows, t);
  }

  /** One line per relation plus a heading and an empty line per table that
      has foreign keys. */
  lemma {:induction false} BlocksLength(groups: Dict<seq<Relation>>)
    requires NoEmptyLists(groups)
    ensures |RelationBlocks(groups)| == 2 * |groups| + Total(groups)
    decreases |groups|
  {
    if |groups| > 0 {
      BlocksLength(groups[1..]);
    }
  }

  /** The summary lists every table, and every foreign-key row becomes
      exactly one arrow line. */
  lemma SummaryLength(tables: seq<string>, counts: seq<nat>, rows: seq<ForeignKeyRow>)
    requires |counts| == |tables|
    ensures |SummaryLines(tables, counts, GroupRelationships(rows))|
         == 7 + |tables| + 2 * |Keys(GroupRelationships(rows))| + |rows|
    ensures forall i :: 0 <= i < |tables| ==>
      SummaryLines(tables, counts, GroupRelationships(rows))[4 + i] == TableLine(tables[i], counts[i])
  {
    GroupCounts(rows);
    BlocksLength(GroupRelationships(rows));
  }
}
