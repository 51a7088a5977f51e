/** Turning the crew's free-text answer into findings: the section extractor
    that runs after `kickoff()` and the heading sniffer of the verbose
    `on_agent_end` hook. Both are pure functions of the text; each finding is
    returned as a draft that the caller logs in order. */
module Extraction {
  import opened Wrappers
  import opened PyStrings
  import opened Sequences

  /** The arguments of one `log_finding` call. */
  datatype Draft = Draft(title: string, description: string, importance: string)

  // ---------------------------------------------------------------------------
  // Lines
  // ---------------------------------------------------------------------------

  /** The text up to the first line break, or all of it. */
  function FirstLine(s: string): (r: string)
    ensures !Contains(r, "\n")
  {
    if Contains(s, "\n") then SplitOnce(s, "\n").0 else s
  }

  /** The text after the first line break, or "" when there is none. */
  function AfterFirstLine(s: string): (r: string)
    ensures Contains(s, "\n") ==> s == FirstLine(s) + "\n" + r
    ensures !Contains(s, "\n") ==> r == ""
  {
    if Contains(s, "\n") then SplitOnce(s, "\n").1 else ""
  }

  /** `lines = s.split("\n")`: `lines[0]` is the first line and
      `"\n".join(lines[1:])` is everything after it. */
  lemma LinesAfterFirst(s: string)
    ensures Split(s, "\n")[0] == FirstLine(s)
    ensures Join(Split(s, "\n")[1..], "\n") == AfterFirstLine(s)
  {
    if Contains(s, "\n") {
      var i := Find(s, "\n").value;
      var rest := s[i + 1..];
      SplitUnfold(s, "\n", i);
      assert Split(s, "\n")[1..] == Split(rest, "\n");
      SplitJoin(rest, "\n");
    }
  }

  // ---------------------------------------------------------------------------
  // Section extraction
  // ---------------------------------------------------------------------------

  /** The answer is cut at every line that begins with a level-two heading. */
  const SectionBreak := "\n## "

  /** A section yields a finding when its lower-cased text starts with one of
      these. */
  const SectionKeywords: seq<string> := ["finding", "anomal", "cause", "result"]

  const FallbackTitle := "Investigation Results"

  function Sections(result: string): (r: seq<string>)
    ensures |r| >= 1
  {
    Split(result, SectionBreak)
  }

  predicate IsFindingSection(section: string) {
    StartsWithAny(Lower(section), SectionKeywords)
  }

  /** The high-importance finding a matching section yields: its first line
      is the title and the rest, stripped, the description. */
  function SectionDraft(section: string): Draft {
    Draft(Strip(FirstLine(section)), Strip(AfterFirstLine(section)), "high")
  }

  /** The draft is what the loop body computes from `lines =
      section.split("\n")`: `lines[0].strip()` and
      `"\n".join(lines[1:]).strip()`. */
  lemma SectionDraftFromLines(section: string)
    ensures var lines := Split(section, "\n");
      SectionDraft(section) == Draft(Strip(lines[0]), Strip(Join(lines[1..], "\n")), "high")
  {
    LinesAfterFirst(section);
  }

  /** One draft per matching section, in order. */
  function SectionDrafts(sections: seq<string>): (r: seq<Draft>)
    ensures |r| <= |sections|
    ensures |r| == 0 <==> forall s :: s in sections ==> !IsFindingSection(s)
    ensures forall i :: 0 <= i < |r| ==> r[i].importance == "high"
    ensures |sections| == 1 ==> r == (if IsFindingSection(sections[0]) then [SectionDraft(sections[0])] else [])
  {
    Pick(sections, IsFindingSection, SectionDraft)
  }

  /** The drafts of consecutive stretches of sections follow each other, so
      every matching section yields its own "high" draft, in section order,
      repeats included. */
  lemma {:induction false} SectionDraftsAppend(a: seq<string>, b: seq<string>)
    ensures SectionDrafts(a + b) == SectionDrafts(a) + SectionDrafts(b)
  {
    PickAppend(a, b, IsFindingSection, SectionDraft);
  }

  /** The drafts are exactly those of the matching sections. */
  lemma SectionDraftsMembers(sections: seq<string>, d: Draft)
    ensures d in SectionDrafts(sections) <==> exists s :: s in sections && IsFindingSection(s) && d == SectionDraft(s)
  {
    PickMembers(sections, IsFindingSection, SectionDraft, d);
  }

  /** The finding logged when no section matched: the whole answer. */
  function Fallback(result: string): Draft {
    Draft(FallbackTitle, result, "medium")
  }

  /** The findings `run_investigation` logs after `kickoff()`. Nothing in the
      extraction can raise, so the `except` branch is never taken. */
  function ExtractFindings(result: string): (r: seq<Draft>)
    ensures |r| >= 1
    ensures r == [Fallback(result)] <==> forall s :: s in Sections(result) ==> !IsFindingSection(s)
    ensures r != [Fallback(result)] ==> r == SectionDrafts(Sections(result))
  {
    var drafts := SectionDrafts(Sections(result));
    if |drafts| == 0 then
      [Fallback(result)]
    else
      assert drafts != [Fallback(result)] by {
        assert drafts[0].importance == "high";
      }
      drafts
  }

  /** Unless it falls back, extraction yields exactly the drafts of the
      sections that start with a finding keyword, all of high importance. */
  lemma ExtractedFromSections(result: string, d: Draft)
    requires ExtractFindings(result) != [Fallback(result)]
    ensures d in ExtractFindings(result) <==>
      exists s :: s in Sections(result) && IsFindingSection(s) && d == SectionDraft(s)
    ensures d in ExtractFindings(result) ==> d.importance == "high"
  {
    SectionDraftsMembers(Sections(result), d);
  }

  /** A heading at the very start of the answer has no line break before it,
      so it is not a section break: an answer that opens with `## Finding…`
      and has no later section break yields only the fallback finding. */
  lemma LeadingHeadingFallsBack(result: string)
    requires |result| > 0 && result[0] == '#' && !Contains(result, SectionBreak)
    ensures ExtractFindings(result) == [Fallback(result)]
  {
    assert Sections(result) == [result];
    var l := Lower(result);
    assert l[0] == '#';
    forall i | 0 <= i < |SectionKeywords|
      ensures !StartsWith(l, SectionKeywords[i])
    {
      assert SectionKeywords[i][0] != '#';
    }
  }

  /** A section that follows a section break is picked up with its heading
      as the title and its body as the description. */
  lemma HeadedSectionExtracted(intro: string, heading: string, body: string)
    requires !Contains(intro, SectionBreak) && !IsFindingSection(intro)
    requires IsFindingSection(heading) && !Contains(heading, "\n")
    requires !Contains("\n" + body, SectionBreak)
    ensures ExtractFindings(intro + SectionBreak + heading + "\n" + body)
         == [Draft(Strip(heading), Strip(body), "high")]
  {
    var section := heading + "\n" + body;
    TwoSections(intro, heading, body);
    HeadedSection(heading, body);
    PickSecond(intro, section, IsFindingSection, SectionDraft);
  }

  /** The only section break is the one before the heading. */
  lemma TwoSections(intro: string, heading: string, body: string)
    requires !Contains(intro, SectionBreak) && !Contains(heading, "\n")
    requires !Contains("\n" + body, SectionBreak)
    ensures Sections(intro + SectionBreak + heading + "\n" + body) == [intro, heading + "\n" + body]
  {
    var result := intro + SectionBreak + heading + "\n" + body;
    var section := heading + "\n" + body;
    assert result == intro + SectionBreak + section;
    FirstBreak(intro, section);
    assert Sections(result) == [intro] + Sections(section) by {
      SplitUnfold(result, SectionBreak, |intro|);
      assert result[..|intro|] == intro;
      assert result[|intro| + |SectionBreak|..] == section;
    }
    assert !Contains(section, SectionBreak) by {
      NoBreakAcrossNewline(heading, body);
    }
  }

  /** A matching heading line followed by a body yields the heading as the
      title and the body as the description. */
  lemma HeadedSection(heading: string, body: string)
    requires IsFindingSection(heading) && !Contains(heading, "\n")
    ensures IsFindingSection(heading + "\n" + body)
    ensures SectionDraft(heading + "\n" + body) == Draft(Strip(heading), Strip(body), "high")
  {
    var section := heading + "\n" + body;
    assert FirstLine(section) == heading && AfterFirstLine(section) == body by {
      FirstBreak2(heading, body);
    }
    assert IsFindingSection(section) by {
      FindingSectionExtends(heading, "\n" + body);
      assert heading + ("\n" + body) == section;
    }
  }

  /** Lower-casing works character by character, so it commutes with
      concatenation. */
  lemma LowerAppend(a: string, b: string)
    ensures Lower(a + b) == Lower(a) + Lower(b)
  {
    var l := Lower(a + b);
    assert forall i :: 0 <= i < |a| ==> l[i] == LowerChar(a[i]);
    assert forall i :: |a| <= i < |a| + |b| ==> l[i] == LowerChar(b[i - |a|]);
  }

  /** Whether a section matches is decided by its start: text appended to a
      matching heading keeps it matching. */
  lemma FindingSectionExtends(heading: string, rest: string)
    requires IsFindingSection(heading)
    ensures IsFindingSection(heading + rest)
  {
    LowerAppend(heading, rest);
    var l, l' := Lower(heading), Lower(heading + rest);
    var i :| 0 <= i < |SectionKeywords| && StartsWith(l, SectionKeywords[i]);
    var k := SectionKeywords[i];
    assert l'[..|k|] == l[..|k|];
    assert StartsWith(l', k);
  }

  /** The first occurrence of a separator is where it was put when the text
      before it does not contain it. */
  lemma FirstBreak(before: string, after: string)
    requires !Contains(before, SectionBreak)
    ensures Find(before + SectionBreak + after, SectionBreak) == Some(|before|)
  {
    var s := before + SectionBreak + after;
    assert OccursAt(s, SectionBreak, |before|) by {
      assert s[|before|..|before| + |SectionBreak|] == SectionBreak;
    }
    forall j | 0 <= j < |before|
      ensures !OccursAt(s, SectionBreak, j)
    {
      if j + |SectionBreak| <= |before| {
        assert before[j..j + |SectionBreak|] == s[j..j + |SectionBreak|];
        assert !OccursAt(before, SectionBreak, j);
      } else {
        BreakStraddles(before, after, j);
      }
    }
  }

  /** A section break cannot start inside `before` and end in the inserted
      break: the break holds only one line break, at its start. */
  lemma BreakStraddles(before: string, after: string, j: nat)
    requires j < |before| < j + |SectionBreak|
    ensures !OccursAt(before + SectionBreak + after, SectionBreak, j)
  {
    var s := before + SectionBreak + after;
    var k := |before| - j;
    assert s[|before|] == '\n';
    assert SectionBreak[k] != '\n';
    if j + |SectionBreak| <= |s| {
      assert s[j..j + |SectionBreak|][k] != SectionBreak[k];
    }
  }

  /** Putting a line without a line break before a body whose line break
      plus text holds no section break creates none. */
  lemma NoBreakAcrossNewline(line: string, body: string)
    requires !Contains(line, "\n") && !Contains("\n" + body, SectionBreak)
    ensures !Contains(line + "\n" + body, SectionBreak)
  {
    var s := line + "\n" + body;
    var tail := "\n" + body;
    assert s == line + tail;
    ContainsChar(line, '\n');
    forall j | 0 <= j
      ensures !OccursAt(s, SectionBreak, j)
    {
      if j < |line| {
        assert s[j] == line[j] && line[j] != '\n';
        if j + |SectionBreak| <= |s| {
          assert s[j..j + |SectionBreak|][0] != SectionBreak[0];
        }
      } else {
        var k := j - |line|;
        if j + |SectionBreak| <= |s| {
          assert s[j..j + |SectionBreak|] == tail[k..k + |SectionBreak|];
        }
        assert !OccursAt(tail, SectionBreak, k);
      }
    }
  }

  /** The first line of `line + "\n" + body` is `line`. */
  lemma FirstBreak2(line: string, body: string)
    requires !Contains(line, "\n")
    ensures FirstLine(line + "\n" + body) == line
    ensures AfterFirstLine(line + "\n" + body) == body
  {
    var s := line + "\n" + body;
    assert OccursAt(s, "\n", |line|) by {
      assert s[|line|..|line| + 1] == "\n";
    }
    forall j | 0 <= j < |line|
      ensures !OccursAt(s, "\n", j)
    {
      assert s[j] == line[j];
      if s[j..j + 1] == "\n" {
        assert line[j..j + 1] == "\n";
        assert OccursAt(line, "\n", j);
      }
    }
    assert Find(s, "\n") == Some(|line|);
  }

  // ---------------------------------------------------------------------------
  // Heading sniffer (verbose hook)
  // ---------------------------------------------------------------------------

  const HeadingMarks: seq<string> := ["#", "##", "###"]

  const SniffedDescription := "(Extracted from agent output)"

  /** A line the hook takes for a heading: once stripped it starts with a
      heading mark, and the raw line is longer than two characters. */
  predicate IsHeadingLine(line: string) {
    StartsWithAny(Strip(line), HeadingMarks) && |line| > 2
  }

  /** `line.strip("#").strip()`: the `#` are removed from the raw ends only,
      before the surrounding whitespace is. */
  function HeadingTitle(line: string): string {
    Strip(StripChar(line, '#'))
  }

  function HeadingDraft(line: string): Draft {
    Draft(HeadingTitle(line), SniffedDescription, "medium")
  }

  /** The hook's findings for the lines of one agent output, in line order:
      one finding for a single heading line, none for any other line. */
  function HeadingDrafts(lines: seq<string>): (r: seq<Draft>)
    ensures |r| <= |lines|
    ensures |lines| == 1 ==> r == (if IsHeadingLine(lines[0]) then [HeadingDraft(lines[0])] else [])
    ensures forall d :: d in r <==> exists line :: line in lines && IsHeadingLine(line) && d == HeadingDraft(line)
  {
    var r := Pick(lines, IsHeadingLine, HeadingDraft);
    forall d {
      PickMembers(lines, IsHeadingLine, HeadingDraft, d);
    }
    r
  }

  /** The findings of consecutive stretches of lines follow each other, so
      every heading line yields its own finding, in line order, repeats
      included. */
  lemma {:induction false} HeadingDraftsAppend(a: seq<string>, b: seq<string>)
    ensures HeadingDrafts(a + b) == HeadingDrafts(a) + HeadingDrafts(b)
  {
    PickAppend(a, b, IsHeadingLine, HeadingDraft);
  }

  /** The hook only looks for headings when the output mentions findings or
      an anomaly, in any case. */
  predicate MentionsFindings(output: string) {
    Contains(Lower(output), "finding") || Contains(Lower(output), "anomaly")
  }

  /** The findings the `on_agent_end` hook logs for one agent output. */
  function SniffFindings(output: string): (r: seq<Draft>)
    ensures !MentionsFindings(output) ==> r == []
    ensures MentionsFindings(output) ==> forall d :: d in r <==>
      exists line :: line in Split(output, "\n") && IsHeadingLine(line) && d == HeadingDraft(line)
    ensures MentionsFindings(output) ==> r == HeadingDrafts(Split(output, "\n"))
    ensures |r| <= multiset(output)['\n'] + 1
  {
    SplitCharCount(output, '\n');
    if MentionsFindings(output) then HeadingDrafts(Split(output, "\n")) else []
  }

  /** Of the three heading marks only the first matters: every line that
      starts with `##` or `###` starts with `#`. */
  lemma HeadingMarkIsHash(s: string)
    ensures StartsWithAny(s, HeadingMarks) <==> StartsWith(s, "#")
  {
    if StartsWithAny(s, HeadingMarks) {
      var i :| 0 <= i < |HeadingMarks| && StartsWith(s, HeadingMarks[i]);
      assert s[0] == HeadingMarks[i][0];
    }
    if StartsWith(s, "#") {
      assert StartsWith(s, HeadingMarks[0]);
    }
  }

  /** An indented heading keeps its `#`: the hashes are stripped from the
      raw line before the indentation is, so `" ## Churn"` is titled
      `"## Churn"`. */
  lemma IndentedHeadingKeepsHashes(heading: string)
    requires |heading| >= 2 && heading[0] == '#'
    requires heading[|heading| - 1] != '#' && !IsSpace(heading[|heading| - 1])
    ensures IsHeadingLine(" " + heading)
    ensures HeadingTitle(" " + heading) == heading
  {
    var line := " " + heading;
    assert StripChar(line, '#') == line by {
      assert line[0] == ' ' && line[|line| - 1] == heading[|heading| - 1];
    }
    assert Strip(line) == heading by {
      assert line == [' '] + heading;
      StripLeading(' ', heading, IsSpace);
    }
    assert StartsWith(heading, HeadingMarks[0]);
  }
}
