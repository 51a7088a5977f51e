/** The investigation scratchpad: two append-only logs (actions and findings),
    a last-write-wins context dict and the session's start time. Each logging
    operation is a function from the old scratchpad to the new one. Clock
    readings are opaque timestamp texts supplied by the caller. */
module Scratchpads {
  import opened Wrappers
  import opened PyStrings
  import opened Dicts
  import opened JsonValues

  /** A timestamp as `datetime.isoformat()` renders it; never empty. */
  type Instant = s: string | |s| > 0 witness "T"

  /** One logged step. `timestamp` is the ISO text stored in the log. */
  datatype Action = Action(timestamp: string, kind: string, description: string, details: Fields)

  /** One logged discovery. `importance` is kept exactly as the caller gave it;
      `relatedActions` are indices into the action log that are never checked. */
  datatype Finding = Finding(
    timestamp: string,
    title: string,
    description: string,
    importance: string,
    relatedActions: seq<int>,
    evidence: Fields)

  datatype Scratchpad = Scratchpad(
    actions: seq<Action>,
    findings: seq<Finding>,
    context: Dict<Json>,
    startTime: Instant)

  /** The context is a dict: each key is bound once. */
  predicate Valid(sp: Scratchpad) {
    DistinctKeys(sp.context)
  }

  /** `Scratchpad()` at clock reading `now`. */
  function New(now: Instant): (sp: Scratchpad)
    ensures sp.actions == [] && sp.findings == [] && sp.context == []
    ensures sp.startTime == now
    ensures Valid(sp)
  {
    Scratchpad([], [], [], now)
  }

  // ---------------------------------------------------------------------------
  // Logging
  // ---------------------------------------------------------------------------

  /** `log_action(action_type, description, details)` at clock reading `now`. */
  function LogAction(sp: Scratchpad, now: string, kind: string, description: string,
                     details: Option<Fields>): (r: Scratchpad)
    ensures |r.actions| == |sp.actions| + 1
    ensures r.actions[..|sp.actions|] == sp.actions
    ensures var a := r.actions[|sp.actions|];
      a.timestamp == now && a.kind == kind && a.description == description
    ensures details.None? ==> r.actions[|sp.actions|].details == []
    ensures details.Some? ==> r.actions[|sp.actions|].details == details.value
    ensures r.findings == sp.findings && r.context == sp.context && r.startTime == sp.startTime
  {
    sp.(actions := sp.actions + [Action(now, kind, description, details.GetOr([]))])
  }

  /** `log_finding(title, description, importance, related_actions, evidence)`
      at clock reading `now`. */
  function LogFinding(sp: Scratchpad, now: string, title: string, description: string,
                      importance: string, relatedActions: Option<seq<int>>,
                      evidence: Option<Fields>): (r: Scratchpad)
    ensures |r.findings| == |sp.findings| + 1
    ensures r.findings[..|sp.findings|] == sp.findings
    ensures var f := r.findings[|sp.findings|];
      && f.timestamp == now && f.title == title && f.description == description
      && f.importance == importance
      && f.relatedActions == (if relatedActions.Some? then relatedActions.value else [])
      && f.evidence == (if evidence.Some? then evidence.value else [])
    ensures r.actions == sp.actions && r.context == sp.context && r.startTime == sp.startTime
  {
    var f := Finding(now, title, description, importance,
                     relatedActions.GetOr([]), evidence.GetOr([]));
    sp.(findings := sp.findings + [f])
  }

  /** `add_context(key, value)` */
  function AddContext(sp: Scratchpad, key: string, value: Json): (r: Scratchpad)
    ensures Get(r.context, key) == Some(value)
    ensures Keys(r.context) == if key in Keys(sp.context) then Keys(sp.context)
                               else Keys(sp.context) + [key]
    ensures Valid(sp) ==> Valid(r)
    ensures r.actions == sp.actions && r.findings == sp.findings && r.startTime == sp.startTime
  {
    SetGet(sp.context, key, value, key);
    sp.(context := Set(sp.context, key, value))
  }

  /** Writing a key twice leaves the second value, lists the key once among
      the context keys, and leaves every other key as it was. */
  lemma ContextOverwrite(sp: Scratchpad, key: string, a: Json, b: Json, other: string)
    requires Valid(sp)
    ensures var r := AddContext(AddContext(sp, key, a), key, b);
      && GetContext(r, Some(key)) == b
      && multiset(GetSummary(r, sp.startTime).contextKeys)[key] == 1
      && (other != key ==> Get(r.context, other) == Get(sp.context, other))
  {
    assert GetContext(AddContext(AddContext(sp, key, a), key, b), Some(key)) == b;
    OverwriteListedOnce(sp, key, a, b);
    if other != key {
      OverwriteKeepsOthers(sp, key, a, b, other);
    }
  }

  lemma OverwriteListedOnce(sp: Scratchpad, key: string, a: Json, b: Json)
    requires Valid(sp)
    ensures multiset(GetSummary(AddContext(AddContext(sp, key, a), key, b), sp.startTime).contextKeys)[key] == 1
  {
    var r := AddContext(AddContext(sp, key, a), key, b);
    assert GetSummary(r, sp.startTime).contextKeys == Keys(r.context);
    KeyListedOnce(r.context, key);
  }

  lemma OverwriteKeepsOthers(sp: Scratchpad, key: string, a: Json, b: Json, other: string)
    requires other != key
    ensures Get(AddContext(AddContext(sp, key, a), key, b).context, other) == Get(sp.context, other)
  {
    var r1 := AddContext(sp, key, a);
    SetGet(sp.context, key, a, other);
    SetGet(r1.context, key, b, other);
  }

  // ---------------------------------------------------------------------------
  // Queries
  // ---------------------------------------------------------------------------

  /** `get_action_history()` */
  function GetActionHistory(sp: Scratchpad): seq<Action> {
    sp.actions
  }

  /** `get_context(key)`: the whole context as an object when no key is given;
      otherwise the key's value, with Python's `None` (here `JNull`) for a
      missing key, which a caller cannot tell from a stored null. */
  function GetContext(sp: Scratchpad, key: Option<string>): (r: Json)
    ensures key.None? ==> r == JObj(sp.context)
    ensures key.Some? && key.value !in Keys(sp.context) ==> r == JNull
    ensures key.Some? && key.value in Keys(sp.context) ==>
      exists i :: 0 <= i < |sp.context| && sp.context[i] == (key.value, r)
  {
    match key
    case None => JObj(sp.context)
    case Some(k) => Get(sp.context, k).GetOr(JNull)
  }

  /** The importance names in ascending order: low=0, medium=1, high=2,
      critical=3. */
  const ImportanceNames: seq<string> := ["low", "medium", "high", "critical"]

  /** The rank of an importance string, compared case-insensitively; any
      other string ranks as "low". */
  function Level(importance: string): (r: nat)
    ensures r < |ImportanceNames|
  {
    var l := Lower(importance);
    if l == "medium" then 1
    else if l == "high" then 2
    else if l == "critical" then 3
    else 0
  }

  /** A named importance ranks at its position in the scale; a positive rank
      comes only from one of the names. */
  lemma LevelOfName(importance: string)
    ensures Level(importance) > 0 ==> Lower(importance) == ImportanceNames[Level(importance)]
    ensures forall i :: 0 <= i < |ImportanceNames| && Lower(importance) == ImportanceNames[i] ==> Level(importance) == i
  {
  }

  /** The findings whose rank is at least `min`, in log order. */
  function AtLeast(fs: seq<Finding>, min: nat): (r: seq<Finding>)
    ensures |r| <= |fs|
    ensures forall f :: f in r <==> f in fs && Level(f.importance) >= min
    ensures IsSubsequence(r, fs)
  {
    if |fs| == 0 then []
    else if Level(fs[0].importance) >= min then [fs[0]] + AtLeast(fs[1..], min)
    else
      var rest := AtLeast(fs[1..], min);
      SubsequenceOfTail(rest, fs);
      rest
  }

  /** `get_findings(min_importance)` */
  function GetFindings(sp: Scratchpad, minImportance: string): (r: seq<Finding>)
    ensures forall f :: f in r <==> f in sp.findings && Level(f.importance) >= Level(minImportance)
    ensures IsSubsequence(r, sp.findings)
  {
    AtLeast(sp.findings, Level(minImportance))
  }

  /** `a` can be obtained from `b` by deleting elements. */
  ghost predicate IsSubsequence<T>(a: seq<T>, b: seq<T>)
    decreases |b|
  {
    || |a| == 0
    || (&& |b| > 0
        && ((a[0] == b[0] && IsSubsequence(a[1..], b[1..])) || IsSubsequence(a, b[1..])))
  }

  lemma SubsequenceOfTail<T>(a: seq<T>, b: seq<T>)
    requires |b| > 0 && IsSubsequence(a, b[1..])
    ensures IsSubsequence(a, b)
  {
  }

  /** Filtering distributes over concatenation: together with the contract of
      `AtLeast` this pins the filter down to "keep, in order, exactly the
      findings that rank high enough". */
  lemma {:induction false} AtLeastAppend(a: seq<Finding>, b: seq<Finding>, min: nat)
    ensures AtLeast(a + b, min) == AtLeast(a, min) + AtLeast(b, min)
    decreases |a|
  {
    if |a| == 0 {
      assert a + b == b;
    } else {
      assert (a + b)[0] == a[0];
      assert (a + b)[1..] == a[1..] + b;
      AtLeastAppend(a[1..], b, min);
    }
  }

  /** Filtering at rank 0 keeps everything. */
  lemma {:induction false} AtLeastZero(fs: seq<Finding>)
    ensures AtLeast(fs, 0) == fs
    decreases |fs|
  {
    if |fs| > 0 {
      AtLeastZero(fs[1..]);
    }
  }

  /** `get_findings("low")`, and a threshold that names no level, return every
      finding in log order. */
  lemma LowThresholdKeepsAll(sp: Scratchpad, threshold: string)
    requires Lower(threshold) !in ImportanceNames[1..]
    ensures GetFindings(sp, threshold) == sp.findings
    ensures GetFindings(sp, "low") == sp.findings
  {
    assert Lower("low") == "low";
    LevelOfName(threshold);
    LevelOfName("low");
    AtLeastZero(sp.findings);
  }

  /** Filtering at a lower rank first changes nothing. */
  lemma {:induction false} AtLeastTwice(fs: seq<Finding>, lo: nat, hi: nat)
    requires lo <= hi
    ensures AtLeast(AtLeast(fs, lo), hi) == AtLeast(fs, hi)
    decreases |fs|
  {
    if |fs| > 0 {
      AtLeastTwice(fs[1..], lo, hi);
    }
  }

  /** Raising the threshold can only drop findings: the stricter result is a
      subsequence of the looser one. */
  lemma ThresholdMonotone(sp: Scratchpad, t1: string, t2: string)
    requires Level(t1) <= Level(t2)
    ensures IsSubsequence(GetFindings(sp, t2), GetFindings(sp, t1))
  {
    AtLeastTwice(sp.findings, Level(t1), Level(t2));
  }

  // ---------------------------------------------------------------------------
  // Summary
  // ---------------------------------------------------------------------------

  datatype Summary = Summary(
    startTime: Instant,
    endTime: Instant,
    actionCount: nat,
    findingCount: nat,
    contextKeys: seq<string>,
    highImportanceFindings: seq<string>)

  function Titles(fs: seq<Finding>): (r: seq<string>)
    ensures |r| == |fs| && forall i :: 0 <= i < |fs| ==> r[i] == fs[i].title
  {
    if |fs| == 0 then [] else [fs[0].title] + Titles(fs[1..])
  }

  /** The titles of the findings whose lower-cased importance is "high" or
      "critical". */
  function HighTitles(fs: seq<Finding>): seq<string> {
    if |fs| == 0 then []
    else
      var l := Lower(fs[0].importance);
      (if l == "high" || l == "critical" then [fs[0].title] else []) + HighTitles(fs[1..])
  }

  /** The titles listed as high-importance are those of `get_findings("high")`. */
  lemma {:induction false} HighTitlesAreHighFindings(fs: seq<Finding>)
    ensures HighTitles(fs) == Titles(AtLeast(fs, 2))
    decreases |fs|
  {
    if |fs| > 0 {
      HighTitlesAreHighFindings(fs[1..]);
      var rest := AtLeast(fs[1..], 2);
      assert Titles([fs[0]] + rest) == [fs[0].title] + Titles(rest) by {
        assert ([fs[0]] + rest)[1..] == rest;
      }
    }
  }

  /** `get_summary()` with the clock reading `now` as `end_time`; the
      fractional `duration_seconds` is not modelled. */
  function GetSummary(sp: Scratchpad, now: Instant): (s: Summary)
    ensures s.startTime == sp.startTime && s.endTime == now
    ensures s.actionCount == |sp.actions| && s.findingCount == |sp.findings|
    ensures forall k :: k in s.contextKeys <==> Get(sp.context, k).Some?
    ensures |s.contextKeys| == |sp.context|
    ensures forall i :: 0 <= i < |sp.context| ==> s.contextKeys[i] == sp.context[i].0
    ensures s.highImportanceFindings == Titles(GetFindings(sp, "high"))
  {
    assert Lower("high") == "high";
    HighTitlesAreHighFindings(sp.findings);
    Summary(sp.startTime, now, |sp.actions|, |sp.findings|, Keys(sp.context), HighTitles(sp.findings))
  }

  // ---------------------------------------------------------------------------
  // Call sequences
  // ---------------------------------------------------------------------------

  /** One call on the scratchpad. */
  datatype Call =
    | CallLogAction(now: string, kind: string, description: string, details: Option<Fields>)
    | CallLogFinding(now: string, title: string, description: string, importance: string,
                     relatedActions: Option<seq<int>>, evidence: Option<Fields>)
    | CallAddContext(key: string, value: Json)

  function Perform(sp: Scratchpad, c: Call): Scratchpad {
    match c
    case CallLogAction(now, kind, description, details) =>
      LogAction(sp, now, kind, description, details)
    case CallLogFinding(now, title, description, importance, related, evidence) =>
      LogFinding(sp, now, title, description, importance, related, evidence)
    case CallAddContext(key, value) => AddContext(sp, key, value)
  }

  /** The calls performed one after another, first call first. */
  function PerformAll(sp: Scratchpad, calls: seq<Call>): Scratchpad
    decreases |calls|
  {
    if |calls| == 0 then sp else PerformAll(Perform(sp, calls[0]), calls[1..])
  }

  /** The action entries a call sequence asks for, in call order. */
  function ActionsRequested(calls: seq<Call>): seq<Action> {
    if |calls| == 0 then []
    else
      (match calls[0]
       case CallLogAction(now, kind, description, details) =>
         [Action(now, kind, description, details.GetOr([]))]
       case _ => [])
      + ActionsRequested(calls[1..])
  }

  /** The finding entries a call sequence asks for, in call order. */
  function FindingsRequested(calls: seq<Call>): seq<Finding> {
    if |calls| == 0 then []
    else
      (match calls[0]
       case CallLogFinding(now, title, description, importance, related, evidence) =>
         [Finding(now, title, description, importance, related.GetOr([]), evidence.GetOr([]))]
       case _ => [])
      + FindingsRequested(calls[1..])
  }

  /** A call list asks for its first call's entries, then the rest's. */
  lemma RequestedCons(c: Call, rest: seq<Call>)
    ensures ActionsRequested([c] + rest) == ActionsRequested([c]) + ActionsRequested(rest)
    ensures FindingsRequested([c] + rest) == FindingsRequested([c]) + FindingsRequested(rest)
  {
    assert ([c] + rest)[1..] == rest;
    assert [c][1..] == [];
  }

  /** What a single call adds to each log. */
  lemma CallEffect(sp: Scratchpad, c: Call)
    ensures Perform(sp, c).actions == sp.actions + ActionsRequested([c])
    ensures Perform(sp, c).findings == sp.findings + FindingsRequested([c])
    ensures Perform(sp, c).startTime == sp.startTime
    ensures Valid(sp) ==> Valid(Perform(sp, c))
  {
    assert [c][1..] == [];
  }

  /** The action log after a call sequence: the old one followed by the
      requested entries. */
  lemma {:induction false} PerformAllActions(sp: Scratchpad, calls: seq<Call>)
    ensures PerformAll(sp, calls).actions == sp.actions + ActionsRequested(calls)
    decreases |calls|
  {
    if |calls| > 0 {
      var c, rest := calls[0], calls[1..];
      var next := Perform(sp, c);
      var last := PerformAll(next, rest);
      assert PerformAll(sp, calls) == last;
      CallEffect(sp, c);
      PerformAllActions(next, rest);
      assert ActionsRequested(calls) == ActionsRequested([c]) + ActionsRequested(rest) by {
        assert [c][1..] == [];
      }
      assert last.actions == (sp.actions + ActionsRequested([c])) + ActionsRequested(rest);
    }
  }

  /** The findings after a call sequence: the old ones followed by the
      requested entries. */
  lemma {:induction false} PerformAllFindings(sp: Scratchpad, calls: seq<Call>)
    ensures PerformAll(sp, calls).findings == sp.findings + FindingsRequested(calls)
    decreases |calls|
  {
    if |calls| > 0 {
      var c, rest := calls[0], calls[1..];
      var next := Perform(sp, c);
      var last := PerformAll(next, rest);
      assert PerformAll(sp, calls) == last;
      CallEffect(sp, c);
      PerformAllFindings(next, rest);
      assert FindingsRequested(calls) == FindingsRequested([c]) + FindingsRequested(rest) by {
        assert [c][1..] == [];
      }
      assert last.findings == (sp.findings + FindingsRequested([c])) + FindingsRequested(rest);
    }
  }

  /** No call moves the start time, and every call keeps the context a dict. */
  lemma {:induction false} PerformAllKeeps(sp: Scratchpad, calls: seq<Call>)
    ensures PerformAll(sp, calls).startTime == sp.startTime
    ensures Valid(sp) ==> Valid(PerformAll(sp, calls))
    decreases |calls|
  {
    if |calls| > 0 {
      var c, rest := calls[0], calls[1..];
      var next := Perform(sp, c);
      CallEffect(sp, c);
      PerformAllKeeps(next, rest);
    }
  }

  /** Both logs are append-only and keep call order: after any sequence of
      calls, the action history and the unfiltered findings are the old ones
      followed by exactly the requested entries, in the order of the calls;
      the start time never changes and the context stays a dict. */
  lemma LogsKeepCallOrder(sp: Scratchpad, calls: seq<Call>)
    ensures GetActionHistory(PerformAll(sp, calls)) == sp.actions + ActionsRequested(calls)
    ensures GetFindings(PerformAll(sp, calls), "low") == sp.findings + FindingsRequested(calls)
    ensures PerformAll(sp, calls).startTime == sp.startTime
    ensures Valid(sp) ==> Valid(PerformAll(sp, calls))
  {
    PerformAllActions(sp, calls);
    PerformAllFindings(sp, calls);
    PerformAllKeeps(sp, calls);
    LowThresholdKeepsAll(PerformAll(sp, calls), "low");
  }
}
