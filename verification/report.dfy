/** `print_report()`: the report is the sequence of arguments handed to
    `print`, one per call. The fractional duration and the `%H:%M:%S`
    rendering of a timestamp come from the clock and are parameters. */
module Reports {
  import opened PyStrings
  import opened Scratchpads
  import opened Wrappers
  import opened JsonValues

  /** `"=" * 60` */
  function Rule(): (r: string)
    ensures |r| == 60
  {
    Repeat('=', 60)
  }

  const Title := "## SALESIQ AGENT INVESTIGATION REPORT"
  const KeyHeading := "\n## KEY FINDINGS"
  const CriticalHeading := "\n### CRITICAL FINDINGS"
  const HighHeading := "\n### HIGH IMPORTANCE FINDINGS"
  const NoHighLine := "\nNo high or critical findings identified."
  const OtherHeading := "\n### OTHER FINDINGS"
  const LogHeading := "\n## ACTION LOG"

  /** The findings whose lower-cased importance is exactly `name`, in log order. */
  function WithImportance(fs: seq<Finding>, name: string): (r: seq<Finding>)
    ensures forall f :: f in r <==> f in fs && Lower(f.importance) == name
    ensures IsSubsequence(r, fs)
    decreases |fs|
  {
    if |fs| == 0 then []
    else if Lower(fs[0].importance) == name then [fs[0]] + WithImportance(fs[1..], name)
    else
      var rest := WithImportance(fs[1..], name);
      SubsequenceOfTail(rest, fs);
      rest
  }

  /** Selecting by importance distributes over concatenation of logs. */
  lemma {:induction false} WithImportanceAppend(a: seq<Finding>, b: seq<Finding>, name: string)
    ensures WithImportance(a + b, name) == WithImportance(a, name) + WithImportance(b, name)
    decreases |a|
  {
    if |a| == 0 {
      assert a + b == b;
    } else {
      assert (a + b)[0] == a[0];
      assert (a + b)[1..] == a[1..] + b;
      WithImportanceAppend(a[1..], b, name);
    }
  }

  /** The heading line of the `n`-th item of a findings block. */
  function ItemLine(n: nat, title: string): (r: string)
    ensures |r| >= 2 && r[0] == '\n' && IsDigit(r[1])
  {
    "\n" + NatToString(n) + ". " + title
  }

  /** An item line starts with its number, so it is never the
      "no high or critical findings" line. */
  lemma ItemLineNotNoHighLine(n: nat, title: string)
    ensures ItemLine(n, title) != NoHighLine
  {
    assert ItemLine(n, title)[1] != NoHighLine[1];
  }

  lemma IndentedNotNoHighLine(description: string)
    ensures "   " + description != NoHighLine
  {
    assert ("   " + description)[0] != NoHighLine[0];
  }

  /** A numbered item with its indented description for each finding,
      numbering from `n`. */
  function DetailedItems(fs: seq<Finding>, n: nat): (r: seq<string>)
    ensures |r| == 2 * |fs|
    ensures forall i :: 0 <= i < |fs| ==>
      r[2 * i] == ItemLine(n + i, fs[i].title) && r[2 * i + 1] == "   " + fs[i].description
    ensures NoHighLine !in r
    decreases |fs|
  {
    if |fs| == 0 then []
    else
      var rest := DetailedItems(fs[1..], n + 1);
      ItemLineNotNoHighLine(n, fs[0].title);
      IndentedNotNoHighLine(fs[0].description);
      DetailedItemsStep(fs, n, rest);
      [ItemLine(n, fs[0].title), "   " + fs[0].description] + rest
  }

  /** The first item's two lines in front of the items of the other findings. */
  lemma DetailedItemsStep(fs: seq<Finding>, n: nat, rest: seq<string>)
    requires |fs| > 0 && |rest| == 2 * |fs[1..]|
    requires forall i :: 0 <= i < |fs[1..]| ==>
      rest[2 * i] == ItemLine(n + 1 + i, fs[1..][i].title) && rest[2 * i + 1] == "   " + fs[1..][i].description
    ensures var r := [ItemLine(n, fs[0].title), "   " + fs[0].description] + rest;
      forall i :: 0 <= i < |fs| ==>
        r[2 * i] == ItemLine(n + i, fs[i].title) && r[2 * i + 1] == "   " + fs[i].description
  {
    var r := [ItemLine(n, fs[0].title), "   " + fs[0].description] + rest;
    forall i | 0 <= i < |fs|
      ensures r[2 * i] == ItemLine(n + i, fs[i].title) && r[2 * i + 1] == "   " + fs[i].description
    {
      if i > 0 {
        var j := i - 1;
        assert fs[1..][j] == fs[i];
        assert r[2 * i] == rest[2 * j] && r[2 * i + 1] == rest[2 * j + 1];
      }
    }
  }

  /** A numbered title line for each finding, numbering from `n`. */
  function TitleItems(fs: seq<Finding>, n: nat): (r: seq<string>)
    ensures |r| == |fs|
    ensures forall i :: 0 <= i < |fs| ==> r[i] == ItemLine(n + i, fs[i].title)
    ensures NoHighLine !in r
    decreases |fs|
  {
    if |fs| == 0 then []
    else
      var rest := TitleItems(fs[1..], n + 1);
      ItemLineNotNoHighLine(n, fs[0].title);
      [ItemLine(n, fs[0].title)] + rest
  }

  /** An optional block: nothing when there are no findings, else the
      heading followed by the detailed items numbered from 1. */
  function DetailedBlock(heading: string, fs: seq<Finding>): (r: seq<string>)
    requires heading != NoHighLine
    ensures |fs| == 0 ==> r == []
    ensures |fs| > 0 ==> |r| == 1 + 2 * |fs| && r[0] == heading
    ensures forall i :: 0 <= i < |fs| ==> r[1 + 2 * i] == ItemLine(i + 1, fs[i].title)
    ensures NoHighLine !in r
  {
    if |fs| == 0 then [] else [heading] + DetailedItems(fs, 1)
  }

  /** Ranks "high" and "critical" are the importances spelled so, in any case. */
  lemma HighRank(importance: string)
    ensures Level(importance) >= 2 <==> Lower(importance) == "high" || Lower(importance) == "critical"
  {
    assert ImportanceNames[2] == "high" && ImportanceNames[3] == "critical";
    LevelOfName(importance);
  }

  /** No finding of the log ranks high or above exactly when neither the
      critical nor the high selection has any. */
  lemma NoneRankHigh(fs: seq<Finding>)
    ensures AtLeast(fs, 2) == [] <==> |WithImportance(fs, "critical")| == 0 && |WithImportance(fs, "high")| == 0
  {
    var critical := WithImportance(fs, "critical");
    var high := WithImportance(fs, "high");
    var atLeast := AtLeast(fs, 2);
    forall f | f in fs {
      HighRank(f.importance);
    }
    if |critical| > 0 {
      assert critical[0] in critical;
      assert critical[0] in atLeast;
    }
    if |high| > 0 {
      assert high[0] in high;
      assert high[0] in atLeast;
    }
    if atLeast != [] {
      assert atLeast[0] in atLeast;
    }
  }

  /** The KEY FINDINGS section: critical findings first, then high ones, and
      the "no high or critical" line when there are neither. */
  function KeyFindings(fs: seq<Finding>): (r: seq<string>)
    ensures |r| > 0 && r[0] == KeyHeading
  {
    var critical := WithImportance(fs, "critical");
    var high := WithImportance(fs, "high");
    [KeyHeading] + DetailedBlock(CriticalHeading, critical) + DetailedBlock(HighHeading, high) + Closing(critical, high)
  }

  /** The line that closes KEY FINDINGS when both blocks are empty. */
  function Closing(critical: seq<Finding>, high: seq<Finding>): seq<string> {
    if |critical| == 0 && |high| == 0 then [NoHighLine] else []
  }

  /** KEY FINDINGS says "no high or critical findings" exactly when no
      finding ranks high or above. */
  lemma KeyFindingsNoHighLine(fs: seq<Finding>)
    ensures NoHighLine in KeyFindings(fs) <==> AtLeast(fs, 2) == []
  {
    var critical := WithImportance(fs, "critical");
    var high := WithImportance(fs, "high");
    var blocks := [KeyHeading] + DetailedBlock(CriticalHeading, critical) + DetailedBlock(HighHeading, high);
    var tail := Closing(critical, high);
    assert KeyFindings(fs) == blocks + tail;
    assert NoHighLine !in blocks;
    NoneRankHigh(fs);
  }

  /** The OTHER FINDINGS section: titles of the medium findings only. */
  function OtherFindings(fs: seq<Finding>): (r: seq<string>)
    ensures var medium := WithImportance(fs, "medium");
      && (|medium| == 0 ==> r == [])
      && (|medium| > 0 ==> |r| == 1 + |medium| && r[0] == OtherHeading
                           && forall i :: 0 <= i < |medium| ==> r[1 + i] == ItemLine(i + 1, medium[i].title))
    ensures NoHighLine !in r
  {
    var medium := WithImportance(fs, "medium");
    if |medium| == 0 then [] else [OtherHeading] + TitleItems(medium, 1)
  }

  /** One line of the action log. */
  function ActionLine(n: nat, a: Action, clock: string -> string): (r: string)
    ensures |r| >= 1 && IsDigit(r[0])
  {
    NatToString(n) + ". [" + clock(a.timestamp) + "] " + a.kind + ": " + a.description
  }

  /** The action lines, numbering from `n`. */
  function ActionLines(actions: seq<Action>, clock: string -> string, n: nat): (r: seq<string>)
    ensures |r| == |actions|
    ensures forall i :: 0 <= i < |actions| ==> r[i] == ActionLine(n + i, actions[i], clock)
    decreases |actions|
  {
    if |actions| == 0 then [] else [ActionLine(n, actions[0], clock)] + ActionLines(actions[1..], clock, n + 1)
  }

  /** The ACTION LOG section: every action, numbered from 1, in log order. */
  function ActionLog(actions: seq<Action>, clock: string -> string): (r: seq<string>)
    ensures |r| == 1 + |actions| && r[0] == LogHeading
    ensures forall i :: 0 <= i < |actions| ==> r[1 + i] == ActionLine(i + 1, actions[i], clock)
    ensures NoHighLine !in r
  {
    var lines := ActionLines(actions, clock, 1);
    var r := [LogHeading] + lines;
    assert forall i :: 0 <= i < |actions| ==> r[1 + i] == lines[i];
    assert forall j :: 1 <= j < |r| ==> r[j][0] != NoHighLine[0];
    r
  }

  /** The banner, title and SUMMARY lines. */
  function Header(startTime: string, duration: string, actionCount: nat, findingCount: nat): (r: seq<string>)
    ensures |r| == 8 && r[0] == "\n" + Rule()
    ensures r[6] == "Actions taken: " + NatToString(actionCount)
    ensures r[7] == "Findings: " + NatToString(findingCount)
    ensures NoHighLine !in r
  {
    var r := [ "\n" + Rule(), Title, Rule(),
      "\n## SUMMARY",
      "Start time: " + startTime,
      "Duration: " + duration + " seconds",
      "Actions taken: " + NatToString(actionCount),
      "Findings: " + NatToString(findingCount)];
    assert r[0][1] != NoHighLine[1];
    assert r[1][0] != NoHighLine[0];
    assert r[2][0] != NoHighLine[0];
    assert r[3][1] != NoHighLine[1];
    assert r[4][0] != NoHighLine[0];
    assert r[5][0] != NoHighLine[0];
    assert r[6][0] != NoHighLine[0];
    assert r[7][0] != NoHighLine[0];
    r
  }

  /** Only the last SUMMARY line depends on the number of findings. */
  lemma HeaderFindingCount(startTime: string, duration: string, actionCount: nat, n: nat, m: nat)
    ensures Header(startTime, duration, actionCount, m)
         == Header(startTime, duration, actionCount, n)[7 := "Findings: " + NatToString(m)]
  {
  }

  /** The OTHER FINDINGS section, the ACTION LOG and the closing rule. */
  function Trailer(sp: Scratchpad, clock: string -> string): (r: seq<string>)
    ensures |r| > 0 && r[|r| - 1] == "\n" + Rule()
    ensures NoHighLine !in r
  {
    var close := "\n" + Rule();
    assert close != NoHighLine by {
      assert close[1] != NoHighLine[1];
    }
    OtherFindings(sp.findings) + ActionLog(sp.actions, clock) + [close]
  }

  /** Everything after the SUMMARY lines. */
  function Body(sp: Scratchpad, clock: string -> string): (r: seq<string>)
    ensures |r| > 1 && r[0] == KeyHeading && r[|r| - 1] == "\n" + Rule()
  {
    KeyFindings(sp.findings) + Trailer(sp, clock)
  }

  /** `print_report()`, with `duration` the `.2f` rendering of the elapsed
      seconds and `clock` the `%H:%M:%S` rendering of a stored timestamp. */
  function Report(sp: Scratchpad, duration: string, clock: string -> string): (r: seq<string>)
    ensures |r| > 9 && r[0] == "\n" + Rule() && r[|r| - 1] == "\n" + Rule()
    ensures r[6] == "Actions taken: " + NatToString(|sp.actions|)
    ensures r[7] == "Findings: " + NatToString(|sp.findings|)
    ensures r[8] == KeyHeading
  {
    Header(sp.startTime, duration, |sp.actions|, |sp.findings|) + Body(sp, clock)
  }

  // ---------------------------------------------------------------------------
  // Properties of the report
  // ---------------------------------------------------------------------------

  /** The "no high or critical findings" line is printed exactly when
      `get_findings("high")` is empty. */
  lemma NoHighLineIffNoHighFindings(sp: Scratchpad, duration: string, clock: string -> string)
    ensures NoHighLine in Report(sp, duration, clock) <==> GetFindings(sp, "high") == []
  {
    assert Level("high") == 2 by {
      assert Lower("high") == "high";
    }
    var h := Header(sp.startTime, duration, |sp.actions|, |sp.findings|);
    assert Report(sp, duration, clock) == h + KeyFindings(sp.findings) + Trailer(sp, clock);
    KeyFindingsNoHighLine(sp.findings);
  }

  /** Where the high block starts in KEY FINDINGS: after the heading and,
      when there are critical findings, the critical block's heading and its
      two lines per finding. */
  function HighStart(fs: seq<Finding>): nat {
    var critical := WithImportance(fs, "critical");
    if |critical| == 0 then 1 else 2 + 2 * |critical|
  }

  lemma HighStartAfterCritical(fs: seq<Finding>)
    ensures HighStart(fs) == |[KeyHeading] + DetailedBlock(CriticalHeading, WithImportance(fs, "critical"))|
  {
  }

  /** The critical block comes before the high block, and each lists its
      findings in log order, numbered from 1. */
  lemma CriticalBeforeHigh(fs: seq<Finding>)
    ensures var r := KeyFindings(fs);
      var critical := WithImportance(fs, "critical");
      var high := WithImportance(fs, "high");
      var h := HighStart(fs);
      && (|critical| > 0 ==>
            r[1] == CriticalHeading
            && forall i :: 0 <= i < |critical| ==> r[2 + 2 * i] == ItemLine(i + 1, critical[i].title))
      && (|high| > 0 ==>
            r[h] == HighHeading
            && forall i :: 0 <= i < |high| ==> r[h + 1 + 2 * i] == ItemLine(i + 1, high[i].title))
  {
    CriticalFirst(fs, WithImportance(fs, "critical"));
    HighNext(fs, WithImportance(fs, "high"), HighStart(fs));
  }

  /** The critical block opens KEY FINDINGS. */
  lemma CriticalFirst(fs: seq<Finding>, critical: seq<Finding>)
    requires critical == WithImportance(fs, "critical")
    ensures |critical| > 0 ==>
      KeyFindings(fs)[1] == CriticalHeading
      && forall i :: 0 <= i < |critical| ==> KeyFindings(fs)[2 + 2 * i] == ItemLine(i + 1, critical[i].title)
  {
    var high := WithImportance(fs, "high");
    var cb := DetailedBlock(CriticalHeading, critical);
    var hb := DetailedBlock(HighHeading, high);
    KeyFindingsParts(fs, critical, high);
    CriticalBlockPlaced(KeyFindings(fs), cb, hb + Closing(critical, high), critical);
  }

  /** The high block follows the critical block (or the heading when there
      are no critical findings). */
  lemma HighNext(fs: seq<Finding>, high: seq<Finding>, h: nat)
    requires high == WithImportance(fs, "high") && h == HighStart(fs)
    ensures |high| > 0 ==>
      KeyFindings(fs)[h] == HighHeading
      && forall i :: 0 <= i < |high| ==> KeyFindings(fs)[h + 1 + 2 * i] == ItemLine(i + 1, high[i].title)
  {
    var critical := WithImportance(fs, "critical");
    var cb := DetailedBlock(CriticalHeading, critical);
    var hb := DetailedBlock(HighHeading, high);
    KeyFindingsParts(fs, critical, high);
    HighStartAfterCritical(fs);
    HighBlockPlaced(KeyFindings(fs), h, [KeyHeading] + cb, hb, Closing(critical, high), high);
  }

  /** KEY FINDINGS is its heading, the critical block, the high block and
      the optional closing line. */
  lemma KeyFindingsParts(fs: seq<Finding>, critical: seq<Finding>, high: seq<Finding>)
    requires critical == WithImportance(fs, "critical") && high == WithImportance(fs, "high")
    ensures KeyFindings(fs) == ([KeyHeading] + DetailedBlock(CriticalHeading, critical))
                             + (DetailedBlock(HighHeading, high) + Closing(critical, high))
  {
    var cb := DetailedBlock(CriticalHeading, critical);
    var hb := DetailedBlock(HighHeading, high);
    var tail := Closing(critical, high);
    assert [KeyHeading] + cb + hb + tail == ([KeyHeading] + cb) + (hb + tail);
  }

  /** The lines of the critical block, just after the section heading. */
  lemma CriticalBlockPlaced(r: seq<string>, cb: seq<string>, after: seq<string>, critical: seq<Finding>)
    requires cb == DetailedBlock(CriticalHeading, critical) && r == ([KeyHeading] + cb) + after
    ensures |critical| > 0 ==>
        r[1] == CriticalHeading
        && forall i :: 0 <= i < |critical| ==> r[2 + 2 * i] == ItemLine(i + 1, critical[i].title)
  {
    if |critical| > 0 {
      LineOfSection([KeyHeading], cb, after, 0);
      forall i | 0 <= i < |critical|
        ensures r[2 + 2 * i] == ItemLine(i + 1, critical[i].title)
      {
        LineOfSection([KeyHeading], cb, after, 1 + 2 * i);
      }
    }
  }

  /** The lines of the high block, after whatever precedes it. */
  lemma HighBlockPlaced(r: seq<string>, h: nat, before: seq<string>, hb: seq<string>, after: seq<string>,
                        high: seq<Finding>)
    requires hb == DetailedBlock(HighHeading, high) && r == before + (hb + after) && h == |before|
    ensures |high| > 0 ==>
      r[h] == HighHeading
      && forall i :: 0 <= i < |high| ==> r[h + 1 + 2 * i] == ItemLine(i + 1, high[i].title)
  {
    assert r == before + hb + after;
    if |high| > 0 {
      LineOfSection(before, hb, after, 0);
      forall i | 0 <= i < |high|
        ensures r[h + 1 + 2 * i] == ItemLine(i + 1, high[i].title)
      {
        LineOfSection(before, hb, after, 1 + 2 * i);
      }
    }
  }

  /** The `k`-th line of a section keeps its line in the printed sequence,
      shifted by what is printed before it. */
  lemma LineOfSection(before: seq<string>, section: seq<string>, after: seq<string>, k: nat)
    requires k < |section|
    ensures (before + section + after)[|before| + k] == section[k]
  {
  }

  /** A finding whose importance is not `name` is not selected under it. */
  lemma SkippedBySelection(a: seq<Finding>, f: Finding, b: seq<Finding>, name: string)
    requires Lower(f.importance) != name
    ensures WithImportance(a + [f] + b, name) == WithImportance(a + b, name)
  {
    WithImportanceAppend(a + [f], b, name);
    WithImportanceAppend(a, [f], name);
    WithImportanceAppend(a, b, name);
  }

  /** The KEY FINDINGS and OTHER FINDINGS sections ignore a finding ranked
      low or with an unknown importance, wherever it sits in the log. */
  lemma SectionsIgnoreLowFinding(a: seq<Finding>, f: Finding, b: seq<Finding>)
    requires Level(f.importance) == 0
    ensures KeyFindings(a + [f] + b) == KeyFindings(a + b)
    ensures OtherFindings(a + [f] + b) == OtherFindings(a + b)
  {
    assert ImportanceNames[1] == "medium" && ImportanceNames[2] == "high" && ImportanceNames[3] == "critical";
    LevelOfName(f.importance);
    SkippedBySelection(a, f, b, "medium");
    SkippedBySelection(a, f, b, "high");
    SkippedBySelection(a, f, b, "critical");
  }

  /** A finding ranked low (or with an unknown importance) shows nowhere in
      the report: inserting one anywhere in the log changes only the
      finding count. */
  lemma LowFindingNotReported(sp: Scratchpad, a: seq<Finding>, f: Finding, b: seq<Finding>,
                              duration: string, clock: string -> string)
    requires sp.findings == a + b && Level(f.importance) == 0
    ensures var sp' := sp.(findings := a + [f] + b);
      Report(sp', duration, clock)
        == Report(sp, duration, clock)[7 := "Findings: " + NatToString(|sp.findings| + 1)]
  {
    var sp' := sp.(findings := a + [f] + b);
    var n := |sp.findings|;
    var x := "Findings: " + NatToString(n + 1);
    var h := Header(sp.startTime, duration, |sp.actions|, n);
    var body := Body(sp, clock);
    BodyIgnoresLowFinding(sp, sp', a, f, b, clock);
    HeaderFindingCount(sp.startTime, duration, |sp.actions|, n, n + 1);
    ReportParts(sp, duration, clock);
    ReportParts(sp', duration, clock);
    UpdateInFirstPart(h, body, 7, x);
  }

  lemma BodyIgnoresLowFinding(sp: Scratchpad, sp': Scratchpad, a: seq<Finding>, f: Finding, b: seq<Finding>,
                              clock: string -> string)
    requires sp.findings == a + b && sp' == sp.(findings := a + [f] + b) && Level(f.importance) == 0
    ensures Body(sp', clock) == Body(sp, clock)
  {
    SectionsIgnoreLowFinding(a, f, b);
  }

  lemma ReportParts(sp: Scratchpad, duration: string, clock: string -> string)
    ensures Report(sp, duration, clock) == Header(sp.startTime, duration, |sp.actions|, |sp.findings|) + Body(sp, clock)
  {
  }

  /** Replacing a line of the first part of a concatenation. */
  lemma UpdateInFirstPart<T>(h: seq<T>, body: seq<T>, k: nat, x: T)
    requires k < |h|
    ensures (h + body)[k := x] == h[k := x] + body
  {
  }

  /** Logging an action adds one numbered line at the end of the action log. */
  lemma ActionLinesAppend(actions: seq<Action>, a: Action, clock: string -> string, n: nat)
    ensures ActionLines(actions + [a], clock, n) == ActionLines(actions, clock, n) + [ActionLine(n + |actions|, a, clock)]
  {
    var line := ActionLine(n + |actions|, a, clock);
    var longer := ActionLines(actions + [a], clock, n);
    var extended := ActionLines(actions, clock, n) + [line];
    assert |longer| == |extended|;
    forall i | 0 <= i < |longer|
      ensures longer[i] == extended[i]
    {
      AppendedAt(actions, a, i);
    }
  }

  /** An element of `xs + [x]`, by position. */
  lemma AppendedAt<T>(xs: seq<T>, x: T, i: nat)
    requires i <= |xs|
    ensures (xs + [x])[i] == if i < |xs| then xs[i] else x
  {
  }

  /** After `log_action`, the report's action log lists the earlier actions
      unchanged and the new one last, numbered after them. */
  lemma LoggedActionListedLast(sp: Scratchpad, now: string, kind: string, description: string,
                               details: Option<Fields>, clock: string -> string)
    ensures var r := LogAction(sp, now, kind, description, details);
      ActionLog(r.actions, clock)
        == ActionLog(sp.actions, clock) + [ActionLine(|sp.actions| + 1, r.actions[|sp.actions|], clock)]
  {
    var r := LogAction(sp, now, kind, description, details);
    var a := r.actions[|sp.actions|];
    assert r.actions == sp.actions + [a];
    ActionLinesAppend(sp.actions, a, clock, 1);
  }
}
