/** The SQL tool: turning what the query executor hands back into a result
    record, and that record into the text the agents read. The executor is
    outside the model; its answer is a parameter. */
module SqlTool {
  import opened Wrappers
  import opened PyStrings
  import opened JsonValues

  // ---------------------------------------------------------------------------
  // Column-name inference
  // ---------------------------------------------------------------------------

  /** Inference needs a `select` somewhere in the lowercased query; without
      one, indexing the split raises and the fallback names are used. */
  predicate CanInfer(query: string) {
    Contains(Lower(query), "select")
  }

  /** The select list of the lowercased query runs from just after its first
      `select` (at `i`) to `j`: the next `select` or `from`, or the end. */
  ghost predicate SelectList(lower: string, i: nat, j: nat) {
    && Find(lower, "select") == Some(i)
    && i + 6 <= j <= |lower|
    && !Contains(lower[i + 6..j], "select")
    && !Contains(lower[i + 6..j], "from")
    && (j == |lower| || OccursAt(lower, "select", j) || OccursAt(lower, "from", j))
  }

  /** `query.lower().split("select")[1].split("from")[0].strip()`: the text
      after the first `select`, up to the next `select` or `from`. */
  function ColumnPart(query: string): (r: string)
    requires CanInfer(query)
    ensures exists i: nat, j: nat :: SelectList(Lower(query), i, j) && r == Strip(Lower(query)[i + 6..j])
  {
    var lower := Lower(query);
    SplitWhole(lower, "select");
    SelectListSpan(lower);
    Strip(Split(Split(lower, "select")[1], "from")[0])
  }

  /** The two splits of `ColumnPart` cut out exactly the select list. */
  lemma SelectListSpan(lower: string)
    requires Contains(lower, "select")
    ensures |Split(lower, "select")| >= 2
    ensures exists i: nat, j: nat ::
      SelectList(lower, i, j) && Split(Split(lower, "select")[1], "from")[0] == lower[i + 6..j]
  {
    var i := Find(lower, "select").value;
    var rest := lower[i + 6..];
    SplitUnfold(lower, "select", i);
    assert Split(lower, "select")[1] == Split(rest, "select")[0];
    var k1 := PieceEnd(rest, "select");
    var seg := rest[..k1];
    var k2 := PieceEnd(seg, "from");
    CutSelectList(lower, i, rest, k1, seg, k2);
    assert Split(Split(lower, "select")[1], "from")[0] == lower[i + 6..i + 6 + k2];
  }

  /** The select list is cut where the first `from` inside the stretch up
      to the next `select` begins. */
  lemma CutSelectList(lower: string, i: nat, rest: string, k1: nat, seg: string, k2: nat)
    requires Find(lower, "select") == Some(i) && i + 6 <= |lower| && rest == lower[i + 6..]
    requires k1 <= |rest| && seg == rest[..k1] && !Contains(seg, "select")
    requires k1 == |rest| || OccursAt(rest, "select", k1)
    requires k2 <= |seg| && !Contains(seg[..k2], "from")
    requires k2 == |seg| || OccursAt(seg, "from", k2)
    ensures seg[..k2] == lower[i + 6..i + 6 + k2]
    ensures SelectList(lower, i, i + 6 + k2)
  {
    assert seg[..k2] == lower[i + 6..i + 6 + k2];
    PrefixStaysFree(seg, "select", k2);
    CutAtKeyword(lower, i, rest, k1, seg, k2);
  }

  /** The cut lies at a `select`, at a `from`, or at the end of the text. */
  lemma CutAtKeyword(lower: string, i: nat, rest: string, k1: nat, seg: string, k2: nat)
    requires i + 6 <= |lower| && rest == lower[i + 6..]
    requires k1 <= |rest| && seg == rest[..k1]
    requires k1 == |rest| || OccursAt(rest, "select", k1)
    requires k2 <= |seg|
    requires k2 == |seg| || OccursAt(seg, "from", k2)
    ensures var j := i + 6 + k2;
      j == |lower| || OccursAt(lower, "select", j) || OccursAt(lower, "from", j)
  {
    assert rest[0..k1] == seg && lower[i + 6..|lower|] == rest;
    if k2 < |seg| {
      OccursInSlice(rest, "from", 0, k1, k2);
      OccursInSlice(lower, "from", i + 6, |lower|, k2);
    } else if k1 < |rest| {
      OccursInSlice(lower, "select", i + 6, |lower|, k1);
    }
  }

  /** `name` is the text after the last space or dot of `s`: a tail of `s`
      with neither, either all of `s` or right after one of them. */
  predicate AfterLastSpaceOrDot(name: string, s: string) {
    && ' ' !in name && '.' !in name
    && |name| <= |s| && s[|s| - |name|..] == name
    && (|name| == |s| || s[|s| - |name| - 1] in " .")
  }

  /** The text after the last space or dot is determined by the text. */
  lemma AfterLastSpaceOrDotUnique(a: string, b: string, s: string)
    requires AfterLastSpaceOrDot(a, s) && AfterLastSpaceOrDot(b, s)
    ensures a == b
  {
    if |a| < |b| {
      CutInsideLongerTail(a, b, s);
      assert false;
    } else if |b| < |a| {
      CutInsideLongerTail(b, a, s);
      assert false;
    }
  }

  /** The character before a tail lies inside any longer tail. */
  lemma CutInsideLongerTail(a: string, b: string, s: string)
    requires |a| < |b| <= |s| && s[|s| - |b|..] == b
    ensures s[|s| - |a| - 1] in b
  {
    assert s[|s| - |a| - 1] == b[|b| - |a| - 1];
  }

  /** `c.strip().split(' ')[-1].split('.')[-1]` for one select-list item: the
      text after the last space or dot of the stripped item. */
  function ItemName(item: string): (r: string)
    ensures AfterLastSpaceOrDot(r, Strip(item))
  {
    LastWordAfterSpace(Strip(item));
    NameAfterDot(LastPiece(Strip(item), " "), Strip(item));
    LastPiece(LastPiece(Strip(item), " "), ".")
  }

  /** `s.split(' ')[-1]` is the text after the last space. */
  lemma LastWordAfterSpace(s: string)
    ensures AfterLast(LastPiece(s, " "), s, ' ')
  {
    assert " " == [' '];
    LastPieceAfterLast(s, ' ');
  }

  /** `word.split('.')[-1]`, for the text after the last space, is the text
      after the last space or dot. */
  lemma NameAfterDot(word: string, s: string)
    requires AfterLast(word, s, ' ')
    ensures AfterLastSpaceOrDot(LastPiece(word, "."), s)
  {
    assert "." == ['.'];
    LastPieceAfterLast(word, '.');
    TailOfTail(LastPiece(word, "."), word, s);
  }

  /** The text after the last dot of the text after the last space. */
  lemma TailOfTail(name: string, word: string, item: string)
    requires AfterLast(word, item, ' ') && AfterLast(name, word, '.')
    ensures AfterLastSpaceOrDot(name, item)
  {
    assert forall x :: x in name ==> x in word by {
      forall x | x in name ensures x in word {
        var m :| 0 <= m < |name| && name[m] == x;
        assert word[|word| - |name| + m] == x;
      }
    }
    assert item[|item| - |name|..] == word[|word| - |name|..];
    if |name| < |word| {
      assert item[|item| - |name| - 1] == word[|word| - |name| - 1];
    }
  }

  /** One name per comma-separated item of the select list. */
  function InferredNames(part: string): (r: seq<string>)
    ensures |r| == |Split(part, ",")|
    ensures forall i :: 0 <= i < |r| ==> r[i] == ItemName(Split(part, ",")[i])
  {
    var items := Split(part, ",");
    seq(|items|, i requires 0 <= i < |items| => ItemName(items[i]))
  }

  /** `[f"column_{i}" for i in range(width)]` */
  function FallbackNames(width: nat): (r: seq<string>)
    ensures |r| == width
    ensures forall i :: 0 <= i < width ==> r[i] == "column_" + NatToString(i)
  {
    seq(width, i requires 0 <= i < width => "column_" + NatToString(i))
  }

  /** The column names guessed for raw tuple rows of the given width. */
  function InferColumns(query: string, width: nat): (r: seq<string>) {
    if CanInfer(query) then InferredNames(ColumnPart(query)) else FallbackNames(width)
  }

  /** The select list is cut at its commas, and each item names its column
      by the text after its last space or dot, so there is one name per
      item and one more name than there are commas. */
  lemma InferredColumns(query: string, width: nat)
    requires CanInfer(query)
    ensures Join(Split(ColumnPart(query), ","), ",") == ColumnPart(query)
    ensures |InferColumns(query, width)| == |Split(ColumnPart(query), ",")|
    ensures forall k :: 0 <= k < |InferColumns(query, width)| ==>
      AfterLastSpaceOrDot(InferColumns(query, width)[k], Strip(Split(ColumnPart(query), ",")[k]))
    ensures |InferColumns(query, width)| == multiset(ColumnPart(query))[','] + 1
    ensures forall name :: name in InferColumns(query, width) ==> ' ' !in name && '.' !in name
  {
    SplitJoin(ColumnPart(query), ",");
    SplitCharCount(ColumnPart(query), ',');
  }

  /** Without a `select` the names are `column_0` up to the row width, all
      different. */
  lemma FallbackColumns(query: string, width: nat)
    requires !CanInfer(query)
    ensures |InferColumns(query, width)| == width
    ensures forall i, j :: 0 <= i < j < width ==> InferColumns(query, width)[i] != InferColumns(query, width)[j]
  {
    var names := FallbackNames(width);
    forall i, j | 0 <= i < j < width
      ensures names[i] != names[j]
    {
      FallbackNamesDiffer(i, j);
    }
  }

  /** The numbered names tell their numbers apart. */
  lemma FallbackNamesDiffer(i: nat, j: nat)
    requires i != j
    ensures "column_" + NatToString(i) != "column_" + NatToString(j)
  {
    if "column_" + NatToString(i) == "column_" + NatToString(j) {
      var p := "column_";
      assert NatToString(i) == ("column_" + NatToString(i))[|p|..];
      assert NatToString(j) == ("column_" + NatToString(j))[|p|..];
      NatToStringRoundTrip(i);
      NatToStringRoundTrip(j);
    }
  }

  // ---------------------------------------------------------------------------
  // run
  // ---------------------------------------------------------------------------

  /** What `execute_query` did: raised with a message, or returned rows,
      whose `_fields` are the column names when the rows are named rows. */
  datatype Outcome =
    | Raised(message: string)
    | Fetched(rows: seq<seq<Json>>, fields: Option<seq<string>>)

  /** The dict `run` returns: `success: False` with the error and the query,
      `success: True` with `row_count` 0 and a message, or a table of rows. */
  datatype RunResult =
    | Failure(error: string, query: string)
    | NoResults(message: string)
    | Table(rowCount: nat, columns: seq<string>, rows: seq<seq<Json>>)

  /** "Query executed successfully, but no results were returned." */
  const NoResultsMessage := "Query executed" + " successfully, but no results were returned."

  /** The error pandas raises when the column names and the row width disagree. */
  function WidthMismatch(names: nat, width: nat): string {
    NatToString(names) + " columns passed, passed data had " + NatToString(width) + " columns"
  }

  /** Every row has one value per column name. */
  predicate FitsColumns(rows: seq<seq<Json>>, columns: seq<string>) {
    forall i :: 0 <= i < |rows| ==> |rows[i]| == |columns|
  }

  /** The column names `run` settles on for a non-empty result. */
  function ColumnsFor(query: string, rows: seq<seq<Json>>, fields: Option<seq<string>>): seq<string>
    requires |rows| > 0
  {
    if fields.Some? then fields.value else InferColumns(query, |rows[0]|)
  }

  /** `SQLTool.run(query, params)`; the statistics, the Markdown preview and
      the per-row records are not modelled. */
  function Run(query: string, outcome: Outcome): (r: RunResult)
    ensures r.Failure? ==> r.query == query
    ensures r.Table? ==> outcome.Fetched? && r.rowCount == |outcome.rows| > 0 && r.rows == outcome.rows
    ensures r.Table? ==> FitsColumns(r.rows, r.columns)
  {
    match outcome
    case Raised(message) => Failure(message, query)
    case Fetched(rows, fields) =>
      if |rows| == 0 then NoResults(NoResultsMessage)
      else
        var columns := ColumnsFor(query, rows, fields);
        if FitsColumns(rows, columns) then Table(|rows|, columns, rows)
        else Failure(WidthMismatch(|columns|, |rows[0]|), query)
  }

  /** `run` never raises: it fails exactly when the executor raised or the
      rows do not fit the column names, reports no results exactly when no
      rows came back, and otherwise tables every row. */
  lemma RunOutcomes(query: string, outcome: Outcome)
    ensures Run(query, outcome).Failure? <==>
      outcome.Raised? || (|outcome.rows| > 0 && !FitsColumns(outcome.rows, ColumnsFor(query, outcome.rows, outcome.fields)))
    ensures Run(query, outcome).NoResults? <==> outcome.Fetched? && |outcome.rows| == 0
    ensures outcome.Raised? ==> Run(query, outcome).error == outcome.message
  {
  }

  // ---------------------------------------------------------------------------
  // run_and_format
  // ---------------------------------------------------------------------------

  const ErrorPrefix := "\U{274C} Query error: "

  const CountPrefix := "Query returned "

  /** `SQLTool.run_and_format(query, params)`. `body` stands for the preview
      table and the statistics section that follow the row count. */
  function RunAndFormat(query: string, outcome: Outcome, body: string): string {
    var r := Run(query, outcome);
    if r.Failure? then ErrorPrefix + r.error
    else if r.NoResults? then NoResultsMessage
    else CountPrefix + NatToString(r.rowCount) + " rows\n\n" + body
  }

  /** The three shapes of the formatted text: the error after the cross mark,
      the fixed no-results message, or the row count heading the table. */
  lemma RunAndFormatBranches(query: string, outcome: Outcome, body: string)
    ensures outcome.Raised? ==> RunAndFormat(query, outcome, body) == ErrorPrefix + outcome.message
    ensures outcome.Fetched? && |outcome.rows| == 0 ==> RunAndFormat(query, outcome, body) == NoResultsMessage
    ensures Run(query, outcome).Table? ==>
      RunAndFormat(query, outcome, body)
        == CountPrefix + NatToString(|outcome.rows|) + " rows\n\n" + body
  {
  }

  /** The text tells the branches apart: it starts with the cross mark exactly
      when the query failed, and it is the no-results message exactly when no
      rows came back. */
  lemma FormatTellsBranches(query: string, outcome: Outcome, body: string)
    ensures StartsWith(RunAndFormat(query, outcome, body), "\U{274C}") <==> Run(query, outcome).Failure?
    ensures RunAndFormat(query, outcome, body) == NoResultsMessage <==> Run(query, outcome).NoResults?
  {
    var out := RunAndFormat(query, outcome, body);
    var r := Run(query, outcome);
    assert NoResultsMessage[0] == 'Q' && NoResultsMessage[6] == 'e';
    if r.Failure? {
      assert out == ErrorPrefix + r.error;
      assert ErrorPrefix[0] == '\U{274C}';
      assert out[0] == '\U{274C}';
      assert out[..1] == "\U{274C}";
    } else if r.Table? {
      var tail := NatToString(r.rowCount) + " rows\n\n" + body;
      assert out == CountPrefix + tail;
      assert CountPrefix[0] == 'Q' && CountPrefix[6] == 'r';
      assert out[0] == 'Q' && out[6] == 'r';
    } else {
      assert out == NoResultsMessage;
    }
  }
}
