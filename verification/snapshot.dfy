/** Snapshots of a scratchpad as a JSON tree: `to_dict` and the reading side
    of `from_json` (after `json.loads`). The snapshot carries a summary that
    is informational only; reading ignores it. */
module Snapshots {
  import opened Wrappers
  import opened Dicts
  import opened JsonValues
  import opened Scratchpads

  // ---------------------------------------------------------------------------
  // Writing: to_dict
  // ---------------------------------------------------------------------------

  function ActionToJson(a: Action): Json {
    JObj([("timestamp", JStr(a.timestamp)),
          ("type", JStr(a.kind)),
          ("description", JStr(a.description)),
          ("details", JObj(a.details))])
  }

  function IntsToJson(xs: seq<int>): seq<Json> {
    if |xs| == 0 then [] else [JInt(xs[0])] + IntsToJson(xs[1..])
  }

  function StringsToJson(xs: seq<string>): seq<Json> {
    if |xs| == 0 then [] else [JStr(xs[0])] + StringsToJson(xs[1..])
  }

  function FindingToJson(f: Finding): Json {
    JObj([("timestamp", JStr(f.timestamp)),
          ("title", JStr(f.title)),
          ("description", JStr(f.description)),
          ("importance", JStr(f.importance)),
          ("related_actions", JArr(IntsToJson(f.relatedActions))),
          ("evidence", JObj(f.evidence))])
  }

  function ActionsToJson(actions: seq<Action>): seq<Json> {
    if |actions| == 0 then [] else [ActionToJson(actions[0])] + ActionsToJson(actions[1..])
  }

  function FindingsToJson(findings: seq<Finding>): seq<Json> {
    if |findings| == 0 then [] else [FindingToJson(findings[0])] + FindingsToJson(findings[1..])
  }

  function SummaryToJson(s: Summary): Json {
    JObj([("start_time", JStr(s.startTime)),
          ("end_time", JStr(s.endTime)),
          ("action_count", JInt(s.actionCount)),
          ("finding_count", JInt(s.findingCount)),
          ("context_keys", JArr(StringsToJson(s.contextKeys))),
          ("high_importance_findings", JArr(StringsToJson(s.highImportanceFindings)))])
  }

  /** `to_dict()`, with `now` the clock reading its nested summary takes. */
  function ToDict(sp: Scratchpad, now: Instant): Json {
    JObj([("actions", JArr(ActionsToJson(sp.actions))),
          ("findings", JArr(FindingsToJson(sp.findings))),
          ("context", JObj(sp.context)),
          ("start_time", JStr(sp.startTime)),
          ("summary", SummaryToJson(GetSummary(sp, now)))])
  }

  // ---------------------------------------------------------------------------
  // Reading: from_json after json.loads
  // ---------------------------------------------------------------------------

  function StringMember(fields: Fields, k: string): Result<string, string> {
    match Member(fields, k)
    case Some(JStr(s)) => Ok(s)
    case _ => Err("member '" + k + "' is not a string")
  }

  function ObjectMember(fields: Fields, k: string): Result<Fields, string> {
    match Member(fields, k)
    case Some(JObj(fs)) => Ok(fs)
    case _ => Err("member '" + k + "' is not an object")
  }

  function DecodeInts(items: seq<Json>): Result<seq<int>, string> {
    if |items| == 0 then Ok([])
    else
      match items[0]
      case JInt(x) =>
        var rest :- DecodeInts(items[1..]);
        Ok([x] + rest)
      case _ => Err("an action index is not an integer")
  }

  function DecodeAction(j: Json): Result<Action, string> {
    match j
    case JObj(fs) =>
      var timestamp :- StringMember(fs, "timestamp");
      var kind :- StringMember(fs, "type");
      var description :- StringMember(fs, "description");
      var details :- ObjectMember(fs, "details");
      Ok(Action(timestamp, kind, description, details))
    case _ => Err("an action is not an object")
  }

  function DecodeFinding(j: Json): Result<Finding, string> {
    match j
    case JObj(fs) =>
      var timestamp :- StringMember(fs, "timestamp");
      var title :- StringMember(fs, "title");
      var description :- StringMember(fs, "description");
      var importance :- StringMember(fs, "importance");
      var related :- match Member(fs, "related_actions")
                     case Some(JArr(items)) => DecodeInts(items)
                     case _ => Err("member 'related_actions' is not a list");
      var evidence :- ObjectMember(fs, "evidence");
      Ok(Finding(timestamp, title, description, importance, related, evidence))
    case _ => Err("a finding is not an object")
  }

  function DecodeActions(items: seq<Json>): Result<seq<Action>, string> {
    if |items| == 0 then Ok([])
    else
      var first :- DecodeAction(items[0]);
      var rest :- DecodeActions(items[1..]);
      Ok([first] + rest)
  }

  function DecodeFindings(items: seq<Json>): Result<seq<Finding>, string> {
    if |items| == 0 then Ok([])
    else
      var first :- DecodeFinding(items[0]);
      var rest :- DecodeFindings(items[1..]);
      Ok([first] + rest)
  }

  /** The start time `from_json` settles on: the stored text when it is
      truthy, otherwise the clock reading `now` taken by `Scratchpad()`. */
  function DecodeStartTime(stored: Option<Json>, now: Instant): (r: Result<Instant, string>)
    ensures stored.None? ==> r == Ok(now)
    ensures stored.Some? && !Truthy(stored.value) ==> r == Ok(now)
    ensures stored.Some? && stored.value.JStr? && stored.value.s != "" ==> r == Ok(stored.value.s)
  {
    if stored.None? || !Truthy(stored.value) then Ok(now)
    else if stored.value.JStr? then
      var s := stored.value.s;
      assert |s| > 0;
      Ok(s)
    else Err("member 'start_time' is not a string")
  }

  /** `Scratchpad.from_json` applied to the tree `json.loads` produced, with
      `now` the clock reading of the fresh scratchpad. Absent members default
      to empty logs, an empty context and `now`; the summary is never read. */
  function FromDict(data: Json, now: Instant): (r: Result<Scratchpad, string>)
    ensures !data.JObj? ==> r.Err?
    ensures r.Ok? ==> Valid(r.value)
    ensures r.Ok? && Member(data.fields, "actions").None? ==> r.value.actions == []
    ensures r.Ok? && Member(data.fields, "findings").None? ==> r.value.findings == []
    ensures r.Ok? && Member(data.fields, "context").None? ==> r.value.context == []
    ensures r.Ok? && Member(data.fields, "start_time").None? ==> r.value.startTime == now
  {
    match data
    case JObj(fields) =>
      var actions :- ReadActions(Member(fields, "actions"));
      var findings :- ReadFindings(Member(fields, "findings"));
      var context :- ReadContext(Member(fields, "context"));
      var start :- DecodeStartTime(Member(fields, "start_time"), now);
      Ok(Scratchpad(actions, findings, context, start))
    case _ => Err("the snapshot is not a JSON object")
  }

  /** The members `from_json` reads. */
  const ReadMemberNames: seq<string> := ["actions", "findings", "context", "start_time"]

  /** A member `from_json` does not read, such as the `summary` that
      `to_dict` writes, changes nothing about the loaded scratchpad. */
  lemma UnreadMemberIgnored(fs: Fields, k: string, v: Json, now: Instant)
    requires k !in ReadMemberNames
    ensures FromDict(JObj(fs + [(k, v)]), now) == FromDict(JObj(fs), now)
  {
    MemberAfterOther(fs, k, v, "actions");
    MemberAfterOther(fs, k, v, "findings");
    MemberAfterOther(fs, k, v, "context");
    MemberAfterOther(fs, k, v, "start_time");
  }

  /** `data.get("actions", [])`, each entry read as an action. */
  function ReadActions(stored: Option<Json>): Result<seq<Action>, string> {
    match stored
    case None => Ok([])
    case Some(JArr(items)) => DecodeActions(items)
    case Some(_) => Err("member 'actions' is not a list")
  }

  /** `data.get("findings", [])`, each entry read as a finding. */
  function ReadFindings(stored: Option<Json>): Result<seq<Finding>, string> {
    match stored
    case None => Ok([])
    case Some(JArr(items)) => DecodeFindings(items)
    case Some(_) => Err("member 'findings' is not a list")
  }

  /** `data.get("context", {})`, as the dict `json.loads` built from it. */
  function ReadContext(stored: Option<Json>): (r: Result<Dict<Json>, string>)
    ensures r.Ok? ==> DistinctKeys(r.value)
  {
    match stored
    case None => Ok([])
    case Some(JObj(fs)) => Ok(FromPairs(fs))
    case Some(_) => Err("member 'context' is not an object")
  }

  // ---------------------------------------------------------------------------
  // Round trip
  // ---------------------------------------------------------------------------

  /** In an object whose member names are distinct, looking a name up finds
      its member. */
  lemma MemberOfDistinct(fs: Fields, i: nat)
    requires DistinctKeys(fs) && i < |fs|
    ensures Member(fs, fs[i].0) == Some(fs[i].1)
  {
    FromDistinctPairs(fs);
    MemberIsDictLookup(fs, fs[i].0);
  }

  lemma ActionRoundTrip(a: Action)
    ensures DecodeAction(ActionToJson(a)) == Ok(a)
  {
    var fs := ActionToJson(a).fields;
    assert DistinctKeys(fs);
    assert StringMember(fs, "timestamp") == Ok(a.timestamp) by { MemberOfDistinct(fs, 0); }
    assert StringMember(fs, "type") == Ok(a.kind) by { MemberOfDistinct(fs, 1); }
    assert StringMember(fs, "description") == Ok(a.description) by { MemberOfDistinct(fs, 2); }
    assert ObjectMember(fs, "details") == Ok(a.details) by { MemberOfDistinct(fs, 3); }
  }

  lemma {:induction false} IntsRoundTrip(xs: seq<int>)
    ensures DecodeInts(IntsToJson(xs)) == Ok(xs)
    decreases |xs|
  {
    if |xs| > 0 {
      IntsRoundTrip(xs[1..]);
      assert [xs[0]] + xs[1..] == xs;
    }
  }

  lemma FindingKeysDistinct(f: Finding)
    ensures DistinctKeys(FindingToJson(f).fields)
  {
  }

  lemma FindingRoundTrip(f: Finding)
    ensures DecodeFinding(FindingToJson(f)) == Ok(f)
  {
    var fs := FindingToJson(f).fields;
    FindingMembers(f, fs);
    IntsRoundTrip(f.relatedActions);
    ReadFindingMembers(fs, f);
  }

  /** The members of a written finding, each found under its name. */
  lemma FindingMembers(f: Finding, fs: Fields)
    requires fs == FindingToJson(f).fields
    ensures StringMember(fs, "timestamp") == Ok(f.timestamp)
    ensures StringMember(fs, "title") == Ok(f.title)
    ensures StringMember(fs, "description") == Ok(f.description)
    ensures StringMember(fs, "importance") == Ok(f.importance)
    ensures Member(fs, "related_actions") == Some(JArr(IntsToJson(f.relatedActions)))
    ensures ObjectMember(fs, "evidence") == Ok(f.evidence)
  {
    FindingKeysDistinct(f);
    MemberOfDistinct(fs, 0);
    MemberOfDistinct(fs, 1);
    MemberOfDistinct(fs, 2);
    MemberOfDistinct(fs, 3);
    MemberOfDistinct(fs, 4);
    MemberOfDistinct(fs, 5);
  }

  /** A finding object whose members read as the fields of `f` decodes to `f`. */
  lemma ReadFindingMembers(fs: Fields, f: Finding)
    requires StringMember(fs, "timestamp") == Ok(f.timestamp)
    requires StringMember(fs, "title") == Ok(f.title)
    requires StringMember(fs, "description") == Ok(f.description)
    requires StringMember(fs, "importance") == Ok(f.importance)
    requires Member(fs, "related_actions") == Some(JArr(IntsToJson(f.relatedActions)))
    requires DecodeInts(IntsToJson(f.relatedActions)) == Ok(f.relatedActions)
    requires ObjectMember(fs, "evidence") == Ok(f.evidence)
    ensures DecodeFinding(JObj(fs)) == Ok(f)
  {
  }

  lemma {:induction false} ActionsRoundTrip(actions: seq<Action>)
    ensures DecodeActions(ActionsToJson(actions)) == Ok(actions)
    decreases |actions|
  {
    if |actions| > 0 {
      ActionRoundTrip(actions[0]);
      ActionsRoundTrip(actions[1..]);
      assert [actions[0]] + actions[1..] == actions;
    }
  }

  lemma {:induction false} FindingsRoundTrip(findings: seq<Finding>)
    ensures DecodeFindings(FindingsToJson(findings)) == Ok(findings)
    decreases |findings|
  {
    if |findings| > 0 {
      FindingRoundTrip(findings[0]);
      FindingsRoundTrip(findings[1..]);
      assert [findings[0]] + findings[1..] == findings;
    }
  }

  lemma SnapshotKeysDistinct(sp: Scratchpad, savedAt: Instant)
    ensures DistinctKeys(ToDict(sp, savedAt).fields)
  {
  }

  /** The members `from_json` reads, as `to_dict` wrote them. */
  lemma SnapshotMembers(sp: Scratchpad, savedAt: Instant, fs: Fields)
    requires fs == ToDict(sp, savedAt).fields
    ensures && Member(fs, "actions") == Some(JArr(ActionsToJson(sp.actions)))
      && Member(fs, "findings") == Some(JArr(FindingsToJson(sp.findings)))
      && Member(fs, "context") == Some(JObj(sp.context))
      && Member(fs, "start_time") == Some(JStr(sp.startTime))
  {
    SnapshotKeysDistinct(sp, savedAt);
    MemberOfDistinct(fs, 0);
    MemberOfDistinct(fs, 1);
    MemberOfDistinct(fs, 2);
    MemberOfDistinct(fs, 3);
  }

  /** Reading back a snapshot restores the actions, findings, context and
      start time exactly, whatever clock readings the summary and the fresh
      scratchpad took. */
  lemma RoundTrip(sp: Scratchpad, savedAt: Instant, loadedAt: Instant)
    requires Valid(sp)
    ensures FromDict(ToDict(sp, savedAt), loadedAt) == Ok(sp)
  {
    var fs := ToDict(sp, savedAt).fields;
    SnapshotMembers(sp, savedAt, fs);
    ReadBack(fs, loadedAt, sp);
  }

  /** The members as written read back as the logs, context and start time. */
  lemma ReadBack(fs: Fields, loadedAt: Instant, sp: Scratchpad)
    requires Valid(sp)
    requires Member(fs, "actions") == Some(JArr(ActionsToJson(sp.actions)))
    requires Member(fs, "findings") == Some(JArr(FindingsToJson(sp.findings)))
    requires Member(fs, "context") == Some(JObj(sp.context))
    requires Member(fs, "start_time") == Some(JStr(sp.startTime))
    ensures FromDict(JObj(fs), loadedAt) == Ok(sp)
  {
    assert ReadActions(Member(fs, "actions")) == Ok(sp.actions) by {
      ActionsRoundTrip(sp.actions);
    }
    assert ReadFindings(Member(fs, "findings")) == Ok(sp.findings) by {
      FindingsRoundTrip(sp.findings);
    }
    assert ReadContext(Member(fs, "context")) == Ok(sp.context) by {
      FromDistinctPairs(sp.context);
    }
    ReadMembers(fs, loadedAt, sp);
  }

  /** `from_json` of an object whose members encode `sp` yields `sp`. */
  lemma ReadMembers(fs: Fields, loadedAt: Instant, sp: Scratchpad)
    requires ReadActions(Member(fs, "actions")) == Ok(sp.actions)
    requires ReadFindings(Member(fs, "findings")) == Ok(sp.findings)
    requires ReadContext(Member(fs, "context")) == Ok(sp.context)
    requires Member(fs, "start_time") == Some(JStr(sp.startTime))
    ensures FromDict(JObj(fs), loadedAt) == Ok(sp)
  {
    assert DecodeStartTime(Member(fs, "start_time"), loadedAt) == Ok(sp.startTime);
  }

  /** An empty object reads as a fresh scratchpad started at the load time. */
  lemma EmptySnapshot(loadedAt: Instant)
    ensures FromDict(JObj([]), loadedAt) == Ok(New(loadedAt))
  {
  }
}
