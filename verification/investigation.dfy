/** The CLI's `--context` parser and the scratchpad bookkeeping around one
    investigation run. The crew itself is outside the model: what
    `crew.kickoff()` returns and the agent hook calls it makes while it runs
    are parameters, and so is the clock. */
module Investigation {
  import opened Wrappers
  import opened PyStrings
  import opened Dicts
  import opened JsonValues
  import opened Sequences
  import opened Scratchpads
  import opened Extraction

  // ---------------------------------------------------------------------------
  // parse_context
  // ---------------------------------------------------------------------------

  /** A comma-separated piece is a binding when it holds an `=`. */
  predicate HasEquals(piece: string) {
    Contains(piece, "=")
  }

  /** `key, value = pair.split("=", 1)`, both sides stripped. Pieces without
      an `=` are skipped before this is reached; for them the result is an
      unused placeholder. */
  function KeyValue(piece: string): (string, string) {
    if HasEquals(piece) then
      var kv := SplitOnce(piece, "=");
      (Strip(kv.0), Strip(kv.1))
    else ("", "")
  }

  /** The bindings in the order they are written. */
  function ContextPairs(text: string): seq<(string, string)> {
    Pick(Split(text, ","), HasEquals, KeyValue)
  }

  /** `parse_context(context_str)` */
  function ParseContext(text: string): (r: Dict<string>)
    ensures DistinctKeys(r)
  {
    if text == "" then [] else FromPairs(ContextPairs(text))
  }

  /** A key holds the value of its last binding in the text, and a key the
      text never binds is absent; the empty text is no exception. */
  lemma ParseContextLookup(text: string, k: string)
    ensures Get(ParseContext(text), k) == LastBinding(ContextPairs(text), k)
  {
    if text == "" {
      SplitWhole("", ",");
      assert Split("", ",") == [""];
      assert !HasEquals("");
    } else {
      AssignGet([], ContextPairs(text), k);
    }
  }

  /** A parsed key never holds a comma or an `=`, and a parsed value never
      holds a comma. */
  lemma ParsedBindingsClean(text: string, k: string)
    requires k in Keys(ParseContext(text))
    ensures ',' !in k && '=' !in k
    ensures ',' !in Get(ParseContext(text), k).value
  {
    var pairs := ContextPairs(text);
    var pieces := Split(text, ",");
    ParseContextLookup(text, k);
    var v := LastBinding(pairs, k).value;
    LastBindingFound(pairs, k);
    var i :| 0 <= i < |pairs| && pairs[i] == (k, v);
    assert pairs[i] in pairs;
    var x :| x in pieces && HasEquals(x) && pairs[i] == KeyValue(x);
    var n :| 0 <= n < |pieces| && pieces[n] == x;
    SplitPiecesFree(text, ",");
    assert !Contains(x, ",");
    PieceClean(x);
  }

  /** What a comma-free binding piece yields is free of commas, and its key
      of `=`. */
  lemma PieceClean(x: string)
    requires !Contains(x, ",") && HasEquals(x)
    ensures ',' !in KeyValue(x).0 && '=' !in KeyValue(x).0 && ',' !in KeyValue(x).1
  {
    var kv := SplitOnce(x, "=");
    assert x == kv.0 + "=" + kv.1;
    ContainsChar(x, ',');
    ContainsChar(kv.0, '=');
    StripInside(kv.0, IsSpace);
    StripInside(kv.1, IsSpace);
  }

  /** A value that survives the round trip: no comma, no surrounding space. */
  predicate CleanValue(s: string) {
    ',' !in s && Strip(s) == s
  }

  /** A key that survives the round trip: a clean value without `=`. */
  predicate CleanKey(s: string) {
    CleanValue(s) && '=' !in s
  }

  predicate Renderable(d: Dict<string>) {
    DistinctKeys(d) && forall i :: 0 <= i < |d| ==> CleanKey(d[i].0) && CleanValue(d[i].1)
  }

  /** The `key=value` items of a dict, in order. */
  function Assignments(d: Dict<string>): (r: seq<string>)
    ensures |r| == |d|
    ensures forall i :: 0 <= i < |d| ==> r[i] == d[i].0 + "=" + d[i].1
  {
    seq(|d|, i requires 0 <= i < |d| => d[i].0 + "=" + d[i].1)
  }

  /** The `--context` text that stands for a dict. */
  function RenderContext(d: Dict<string>): string {
    Join(Assignments(d), ",")
  }

  /** Parsing the rendering of a dict with clean keys and values gives the
      dict back, order included. */
  lemma ParseRenderRoundTrip(d: Dict<string>)
    requires Renderable(d)
    ensures ParseContext(RenderContext(d)) == d
  {
    if |d| > 0 {
      var items := Assignments(d);
      forall i | 0 <= i < |items|
        ensures ',' !in items[i]
      {
        assert items[i] == d[i].0 + "=" + d[i].1;
      }
      assert items[0] == d[0].0 + "=" + d[0].1;
      assert |RenderContext(d)| >= |items[0]| > 0;
      SplitJoinChar(items, ',');
      assert Split(RenderContext(d), ",") == items;
      PickAssignments(d);
      FromDistinctPairs(d);
    }
  }

  /** Each clean item parses back to its own binding. */
  lemma {:induction false} PickAssignments(d: Dict<string>)
    requires forall i :: 0 <= i < |d| ==> CleanKey(d[i].0) && CleanValue(d[i].1)
    ensures Pick(Assignments(d), HasEquals, KeyValue) == d
    decreases |d|
  {
    if |d| > 0 {
      var item := d[0].0 + "=" + d[0].1;
      var rest := Assignments(d[1..]);
      ItemParses(d[0].0, d[0].1);
      AssignmentsCons(d);
      PickCons(item, rest, HasEquals, KeyValue);
      PickAssignments(d[1..]);
      ConsTail(d);
    }
  }

  lemma AssignmentsCons(d: Dict<string>)
    requires |d| > 0
    ensures Assignments(d) == [d[0].0 + "=" + d[0].1] + Assignments(d[1..])
  {
  }

  /** One clean `key=value` item parses back to its binding. */
  lemma ItemParses(k: string, v: string)
    requires CleanKey(k) && CleanValue(v)
    ensures HasEquals(k + "=" + v) && KeyValue(k + "=" + v) == (k, v)
  {
    assert k + "=" + v == k + ['='] + v;
    SplitOnceAtFirst(k, '=', v);
  }

  // ---------------------------------------------------------------------------
  // run_investigation
  // ---------------------------------------------------------------------------

  /** A hook call the crew makes while it runs: `on_agent_start(agent)` or
      `on_agent_end(agent, result)`. */
  datatype AgentEvent = AgentStart(role: string) | AgentEnd(role: string, output: string)

  /** One scratchpad call of the run, before the clock is read for it. */
  datatype Entry =
    | Put(key: string, value: Json)                              // add_context
    | Act(kind: string, description: string, details: Fields)    // log_action
    | Note(draft: Draft)                                         // log_finding

  /** A clock: the reading taken at each step of the run, in order. */
  type Clock = nat -> Instant

  function ToCall(e: Entry, now: Instant): Call {
    match e
    case Put(key, value) => CallAddContext(key, value)
    case Act(kind, description, details) => CallLogAction(now, kind, description, Some(details))
    case Note(d) => CallLogFinding(now, d.title, d.description, d.importance, None, None)
  }

  /** The entries as calls, the `i`-th reading the clock at step `t + i`. */
  function Stamp(es: seq<Entry>, clock: Clock, t: nat): (r: seq<Call>)
    ensures |r| == |es|
    decreases |es|
  {
    if |es| == 0 then [] else [ToCall(es[0], clock(t))] + Stamp(es[1..], clock, t + 1)
  }

  /** `add_context(key, value)` for each item of the caller's context. */
  function Puts(context: Fields): (r: seq<Entry>)
    ensures |r| == |context|
    ensures forall i :: 0 <= i < |r| ==> r[i] == Put(context[i].0, context[i].1)
  {
    seq(|context|, i requires 0 <= i < |context| => Put(context[i].0, context[i].1))
  }

  /** `log_finding` for each draft, with no related actions and no evidence. */
  function Notes(ds: seq<Draft>): (r: seq<Entry>)
    ensures |r| == |ds|
    ensures forall i :: 0 <= i < |r| ==> r[i] == Note(ds[i])
  {
    seq(|ds|, i requires 0 <= i < |ds| => Note(ds[i]))
  }

  /** The caller's context items when `if context:` admits them. */
  function UserContext(context: Option<Fields>): Fields {
    if context.Some? && |context.value| > 0 then context.value else []
  }

  function ContextEntries(query: string, context: Option<Fields>): seq<Entry> {
    [Put("query", JStr(query))] + Puts(UserContext(context))
  }

  /** The `investigation_start` action; `context or {}` is the caller's
      context, or an empty object when there is none. */
  function StartEntry(query: string, context: Option<Fields>): Entry {
    Act("investigation_start", "Starting investigation: " + query,
        [("context", JObj(context.GetOr([])))])
  }

  /** The action a hook call logs. */
  function HookAction(ev: AgentEvent): Entry {
    match ev
    case AgentStart(role) =>
      Act("agent_start", "Agent " + role + " starting work", [("agent", JStr(role))])
    case AgentEnd(role, output) =>
      Act("agent_end", "Agent " + role + " completed work",
          [("agent", JStr(role)), ("result_preview", JStr(Preview(output, 100)))])
  }

  /** The findings the heading sniffer logs for a hook call. */
  function HookDrafts(ev: AgentEvent): seq<Draft> {
    if ev.AgentEnd? then SniffFindings(ev.output) else []
  }

  /** A hook call's action, followed by its sniffed findings. */
  function HookEntries(ev: AgentEvent): seq<Entry> {
    [HookAction(ev)] + Notes(HookDrafts(ev))
  }

  function HooksEntries(events: seq<AgentEvent>): seq<Entry>
    decreases |events|
  {
    if |events| == 0 then [] else HookEntries(events[0]) + HooksEntries(events[1..])
  }

  /** The `investigation_complete` action. */
  function CompleteEntry(result: string): Entry {
    Act("investigation_complete", "Investigation completed",
        [("result_preview", JStr(Preview(result, 200)))])
  }

  /** Every scratchpad call of a run, in order. Hooks are only registered when
      `verbose` is set. */
  function Entries(query: string, context: Option<Fields>, verbose: bool,
                   events: seq<AgentEvent>, result: string): seq<Entry> {
    ContextEntries(query, context)
    + [StartEntry(query, context)]
    + (if verbose then HooksEntries(events) else [])
    + [CompleteEntry(result)]
    + Notes(ExtractFindings(result))
  }

  /** `run_investigation(query, context, verbose)` when the crew fires the hook
      calls `events` and returns `result`; `clock(0)` is read by
      `Scratchpad()`, later readings by the logging calls in turn. */
  function RunInvestigation(query: string, context: Option<Fields>, verbose: bool,
                            events: seq<AgentEvent>, result: string, clock: Clock)
    : (r: (Scratchpad, string))
    ensures r.1 == result
    ensures r.0.startTime == clock(0)
    ensures Valid(r.0)
  {
    var calls := Stamp(Entries(query, context, verbose, events, result), clock, 1);
    PerformAllKeeps(New(clock(0)), calls);
    (PerformAll(New(clock(0)), calls), result)
  }

  // ---------------------------------------------------------------------------
  // What the run logs
  // ---------------------------------------------------------------------------

  predicate IsPut(e: Entry) { e.Put? }
  predicate IsAct(e: Entry) { e.Act? }
  predicate IsNote(e: Entry) { e.Note? }

  function Same(e: Entry): Entry { e }

  function Binding(e: Entry): (string, Json) {
    if e.Put? then (e.key, e.value) else ("", JNull)
  }

  function DraftOf(e: Entry): Draft {
    if e.Note? then e.draft else Draft("", "", "")
  }

  /** A logged action without its timestamp. */
  function ActionEntry(a: Action): Entry {
    Act(a.kind, a.description, a.details)
  }

  function ActionEntries(actions: seq<Action>): (r: seq<Entry>)
    ensures |r| == |actions|
    ensures forall i :: 0 <= i < |r| ==> r[i] == ActionEntry(actions[i])
  {
    seq(|actions|, i requires 0 <= i < |actions| => ActionEntry(actions[i]))
  }

  /** A logged finding without its timestamp, related actions and evidence. */
  function FindingDraft(f: Finding): Draft {
    Draft(f.title, f.description, f.importance)
  }

  function FindingDrafts(fs: seq<Finding>): (r: seq<Draft>)
    ensures |r| == |fs|
    ensures forall i :: 0 <= i < |r| ==> r[i] == FindingDraft(fs[i])
  {
    seq(|fs|, i requires 0 <= i < |fs| => FindingDraft(fs[i]))
  }

  /** The actions a stamped call list logs are its action entries, in order. */
  lemma {:induction false} StampActions(es: seq<Entry>, clock: Clock, t: nat)
    ensures ActionEntries(ActionsRequested(Stamp(es, clock, t))) == Pick(es, IsAct, Same)
    decreases |es|
  {
    if |es| > 0 {
      var calls := Stamp(es, clock, t);
      var head := ActionsRequested([calls[0]]);
      var tail := ActionsRequested(calls[1..]);
      assert calls[1..] == Stamp(es[1..], clock, t + 1);
      StampActions(es[1..], clock, t + 1);
      RequestedCons(calls[0], calls[1..]);
      ConsTail(calls);
      StampedAction(es[0], clock(t));
      ActionEntriesAppend(head, tail);
    }
  }

  /** The findings a stamped call list logs are its notes, in order. */
  lemma {:induction false} StampFindings(es: seq<Entry>, clock: Clock, t: nat)
    ensures FindingDrafts(FindingsRequested(Stamp(es, clock, t))) == Pick(es, IsNote, DraftOf)
    decreases |es|
  {
    if |es| > 0 {
      var calls := Stamp(es, clock, t);
      var head := FindingsRequested([calls[0]]);
      var tail := FindingsRequested(calls[1..]);
      assert calls[1..] == Stamp(es[1..], clock, t + 1);
      StampFindings(es[1..], clock, t + 1);
      RequestedCons(calls[0], calls[1..]);
      ConsTail(calls);
      StampedFinding(es[0], clock(t));
      FindingDraftsAppend(head, tail);
    }
  }

  lemma ActionEntriesAppend(a: seq<Action>, b: seq<Action>)
    ensures ActionEntries(a + b) == ActionEntries(a) + ActionEntries(b)
  {
    var l, r := ActionEntries(a + b), ActionEntries(a) + ActionEntries(b);
    forall i | 0 <= i < |l|
      ensures l[i] == r[i]
    {
      if i < |a| {
        assert (a + b)[i] == a[i];
      } else {
        assert (a + b)[i] == b[i - |a|];
      }
    }
  }

  lemma FindingDraftsAppend(a: seq<Finding>, b: seq<Finding>)
    ensures FindingDrafts(a + b) == FindingDrafts(a) + FindingDrafts(b)
  {
    var l, r := FindingDrafts(a + b), FindingDrafts(a) + FindingDrafts(b);
    forall i | 0 <= i < |l|
      ensures l[i] == r[i]
    {
      if i < |a| {
        assert (a + b)[i] == a[i];
      } else {
        assert (a + b)[i] == b[i - |a|];
      }
    }
  }

  /** A single stamped entry logs an action exactly when it is one. */
  lemma StampedAction(e: Entry, now: Instant)
    ensures ActionEntries(ActionsRequested([ToCall(e, now)])) == if IsAct(e) then [e] else []
  {
    assert [ToCall(e, now)][1..] == [];
  }

  /** A single stamped entry logs a finding exactly when it is a note. */
  lemma StampedFinding(e: Entry, now: Instant)
    ensures FindingDrafts(FindingsRequested([ToCall(e, now)])) == if IsNote(e) then [DraftOf(e)] else []
  {
    assert [ToCall(e, now)][1..] == [];
  }

  /** No stamped call logs a finding with related actions or evidence. */
  lemma {:induction false} StampFindingsBare(es: seq<Entry>, clock: Clock, t: nat)
    ensures forall f :: f in FindingsRequested(Stamp(es, clock, t)) ==>
      f.relatedActions == [] && f.evidence == []
    decreases |es|
  {
    if |es| > 0 {
      var calls := Stamp(es, clock, t);
      assert calls[1..] == Stamp(es[1..], clock, t + 1);
      StampFindingsBare(es[1..], clock, t + 1);
      RequestedCons(calls[0], calls[1..]);
      ConsTail(calls);
    }
  }

  /** After a stamped call list the context is the old one with the list's
      bindings assigned in order. */
  lemma {:induction false} StampContext(sp: Scratchpad, es: seq<Entry>, clock: Clock, t: nat)
    ensures PerformAll(sp, Stamp(es, clock, t)).context == Assign(sp.context, Pick(es, IsPut, Binding))
    decreases |es|
  {
    if |es| > 0 {
      var calls := Stamp(es, clock, t);
      var next := Perform(sp, calls[0]);
      assert calls[1..] == Stamp(es[1..], clock, t + 1);
      assert PerformAll(sp, calls) == PerformAll(next, calls[1..]);
      StampContext(next, es[1..], clock, t + 1);
      var rest := Pick(es[1..], IsPut, Binding);
      if IsPut(es[0]) {
        assert next.context == Set(sp.context, es[0].key, es[0].value);
        AssignCons(sp.context, Binding(es[0]), rest);
      } else {
        assert next.context == sp.context;
      }
    }
  }

  /** `Pick` over a single element. */
  lemma PickOne<T, U>(x: T, keep: T -> bool, make: T -> U)
    ensures Pick([x], keep, make) == if keep(x) then [make(x)] else []
  {
    assert [x][1..] == [];
  }

  /** The hook calls' actions, one per call. */
  function HookActions(events: seq<AgentEvent>): (r: seq<Entry>)
    ensures |r| == |events|
    ensures forall i :: 0 <= i < |r| ==> r[i] == HookAction(events[i])
  {
    seq(|events|, i requires 0 <= i < |events| => HookAction(events[i]))
  }

  lemma HookActionsCons(events: seq<AgentEvent>)
    requires |events| > 0
    ensures HookActions(events) == [HookAction(events[0])] + HookActions(events[1..])
  {
  }

  lemma NotesHaveNoActions(ds: seq<Draft>)
    ensures Pick(Notes(ds), IsAct, Same) == []
  {
    PickNone(Notes(ds), IsAct, Same);
  }

  lemma NotesHaveNoBindings(ds: seq<Draft>)
    ensures Pick(Notes(ds), IsPut, Binding) == []
  {
    PickNone(Notes(ds), IsPut, Binding);
  }

  /** Each hook call logs exactly one action. */
  lemma {:induction false} HooksActions(events: seq<AgentEvent>)
    ensures Pick(HooksEntries(events), IsAct, Same) == HookActions(events)
    decreases |events|
  {
    if |events| > 0 {
      var ev := events[0];
      var notes := Notes(HookDrafts(ev));
      PickAppend(HookEntries(ev), HooksEntries(events[1..]), IsAct, Same);
      PickAppend([HookAction(ev)], notes, IsAct, Same);
      PickOne(HookAction(ev), IsAct, Same);
      NotesHaveNoActions(HookDrafts(ev));
      HooksActions(events[1..]);
      HookActionsCons(events);
    }
  }

  /** The hook calls' findings, in call order. */
  function SniffedDrafts(events: seq<AgentEvent>): seq<Draft>
    decreases |events|
  {
    if |events| == 0 then [] else HookDrafts(events[0]) + SniffedDrafts(events[1..])
  }

  /** Only the sniffer's findings come out of the hook calls. */
  lemma {:induction false} HooksFindings(events: seq<AgentEvent>)
    ensures Pick(HooksEntries(events), IsNote, DraftOf) == SniffedDrafts(events)
    decreases |events|
  {
    if |events| > 0 {
      var ev := events[0];
      var notes := Notes(HookDrafts(ev));
      PickAppend(HookEntries(ev), HooksEntries(events[1..]), IsNote, DraftOf);
      PickAppend([HookAction(ev)], notes, IsNote, DraftOf);
      PickOne(HookAction(ev), IsNote, DraftOf);
      NotesDrafts(HookDrafts(ev));
      HooksFindings(events[1..]);
    }
  }

  /** The notes of a list of drafts give the drafts back. */
  lemma {:induction false} NotesDrafts(ds: seq<Draft>)
    ensures Pick(Notes(ds), IsNote, DraftOf) == ds
    decreases |ds|
  {
    if |ds| > 0 {
      assert Notes(ds)[1..] == Notes(ds[1..]);
      NotesDrafts(ds[1..]);
      assert [ds[0]] + ds[1..] == ds;
    }
  }

  /** The context items as entries give the items back as bindings. */
  lemma {:induction false} PutsBindings(fs: Fields)
    ensures Pick(Puts(fs), IsPut, Binding) == fs
    decreases |fs|
  {
    if |fs| > 0 {
      assert Puts(fs) == [Put(fs[0].0, fs[0].1)] + Puts(fs[1..]);
      PickCons(Put(fs[0].0, fs[0].1), Puts(fs[1..]), IsPut, Binding);
      PutsBindings(fs[1..]);
      ConsTail(fs);
    }
  }

  /** The context entries of a run hold no log calls. */
  lemma ContextEntriesOnlyBind(query: string, context: Option<Fields>)
    ensures Pick(ContextEntries(query, context), IsAct, Same) == []
    ensures Pick(ContextEntries(query, context), IsNote, DraftOf) == []
  {
    PickNone(ContextEntries(query, context), IsAct, Same);
    PickNone(ContextEntries(query, context), IsNote, DraftOf);
  }

  /** The run's actions: the start, one per hook call, the completion. */
  lemma EntriesActions(query: string, context: Option<Fields>, verbose: bool,
                       events: seq<AgentEvent>, result: string)
    ensures Pick(Entries(query, context, verbose, events, result), IsAct, Same)
         == [StartEntry(query, context)] + (if verbose then HookActions(events) else [])
            + [CompleteEntry(result)]
  {
    var a, b := ContextEntries(query, context), [StartEntry(query, context)];
    var h := if verbose then HooksEntries(events) else [];
    var c, n := [CompleteEntry(result)], Notes(ExtractFindings(result));
    var hs := if verbose then HookActions(events) else [];
    assert Entries(query, context, verbose, events, result) == a + b + h + c + n;
    PickFive(a, b, h, c, n, IsAct, Same);
    ContextEntriesOnlyBind(query, context);
    NotesHaveNoActions(ExtractFindings(result));
    PickOne(StartEntry(query, context), IsAct, Same);
    PickOne(CompleteEntry(result), IsAct, Same);
    if verbose {
      HooksActions(events);
    }
    assert Pick(h, IsAct, Same) == hs;
    DropEmptyEnds(b, hs, c);
  }

  /** The run's findings: the sniffed ones, then the extracted ones. */
  lemma EntriesFindings(query: string, context: Option<Fields>, verbose: bool,
                        events: seq<AgentEvent>, result: string)
    ensures Pick(Entries(query, context, verbose, events, result), IsNote, DraftOf)
         == (if verbose then SniffedDrafts(events) else []) + ExtractFindings(result)
  {
    var a, b := ContextEntries(query, context), [StartEntry(query, context)];
    var h := if verbose then HooksEntries(events) else [];
    var c, n := [CompleteEntry(result)], Notes(ExtractFindings(result));
    var hs := if verbose then SniffedDrafts(events) else [];
    assert Entries(query, context, verbose, events, result) == a + b + h + c + n;
    PickFive(a, b, h, c, n, IsNote, DraftOf);
    ContextEntriesOnlyBind(query, context);
    NotesDrafts(ExtractFindings(result));
    PickOne(StartEntry(query, context), IsNote, DraftOf);
    PickOne(CompleteEntry(result), IsNote, DraftOf);
    if verbose {
      HooksFindings(events);
    }
    assert Pick(h, IsNote, DraftOf) == hs;
    KeepMiddleAndLast(hs, ExtractFindings(result));
  }

  /** The run's context bindings: the query, then the caller's items. */
  lemma EntriesBindings(query: string, context: Option<Fields>, verbose: bool,
                        events: seq<AgentEvent>, result: string)
    ensures Pick(Entries(query, context, verbose, events, result), IsPut, Binding)
         == [("query", JStr(query))] + UserContext(context)
  {
    var q, u := Put("query", JStr(query)), Puts(UserContext(context));
    var a, b := ContextEntries(query, context), [StartEntry(query, context)];
    var h := if verbose then HooksEntries(events) else [];
    var c, n := [CompleteEntry(result)], Notes(ExtractFindings(result));
    assert Entries(query, context, verbose, events, result) == a + b + h + c + n;
    PickFive(a, b, h, c, n, IsPut, Binding);
    assert a == [q] + u;
    PickCons(q, u, IsPut, Binding);
    PutsBindings(UserContext(context));
    PickOne(StartEntry(query, context), IsPut, Binding);
    PickOne(CompleteEntry(result), IsPut, Binding);
    if verbose {
      HooksHaveNoBindings(events);
    }
    assert Pick(h, IsPut, Binding) == [];
    NotesHaveNoBindings(ExtractFindings(result));
    KeepFirst(Pick(a, IsPut, Binding));
  }

  /** Hook calls never write the context. */
  lemma {:induction false} HooksHaveNoBindings(events: seq<AgentEvent>)
    ensures Pick(HooksEntries(events), IsPut, Binding) == []
    decreases |events|
  {
    if |events| > 0 {
      var ev := events[0];
      PickAppend(HookEntries(ev), HooksEntries(events[1..]), IsPut, Binding);
      PickAppend([HookAction(ev)], Notes(HookDrafts(ev)), IsPut, Binding);
      PickOne(HookAction(ev), IsPut, Binding);
      NotesHaveNoBindings(HookDrafts(ev));
      HooksHaveNoBindings(events[1..]);
    }
  }

  // ---------------------------------------------------------------------------
  // The run's scratchpad
  // ---------------------------------------------------------------------------

  /** The action log of a run, timestamps aside: `investigation_start`, then
      one `agent_start` or `agent_end` action per hook call when verbose,
      then `investigation_complete`. */
  lemma RunActions(query: string, context: Option<Fields>, verbose: bool,
                   events: seq<AgentEvent>, result: string, clock: Clock)
    ensures ActionEntries(RunInvestigation(query, context, verbose, events, result, clock).0.actions)
         == [StartEntry(query, context)] + (if verbose then HookActions(events) else [])
            + [CompleteEntry(result)]
  {
    var es := Entries(query, context, verbose, events, result);
    var calls := Stamp(es, clock, 1);
    PerformAllActions(New(clock(0)), calls);
    assert [] + ActionsRequested(calls) == ActionsRequested(calls);
    StampActions(es, clock, 1);
    EntriesActions(query, context, verbose, events, result);
  }

  /** The findings of a run, timestamps aside: the headings the hooks sniffed
      when verbose, then what the final extraction found; none carries
      related actions or evidence. */
  lemma RunFindings(query: string, context: Option<Fields>, verbose: bool,
                    events: seq<AgentEvent>, result: string, clock: Clock)
    ensures FindingDrafts(RunInvestigation(query, context, verbose, events, result, clock).0.findings)
         == (if verbose then SniffedDrafts(events) else []) + ExtractFindings(result)
    ensures forall f :: f in RunInvestigation(query, context, verbose, events, result, clock).0.findings ==>
      f.relatedActions == [] && f.evidence == []
  {
    var es := Entries(query, context, verbose, events, result);
    var calls := Stamp(es, clock, 1);
    PerformAllFindings(New(clock(0)), calls);
    assert [] + FindingsRequested(calls) == FindingsRequested(calls);
    StampFindings(es, clock, 1);
    StampFindingsBare(es, clock, 1);
    EntriesFindings(query, context, verbose, events, result);
  }

  /** The context of a run: `query` assigned first, then the caller's items
      in order. */
  lemma RunContext(query: string, context: Option<Fields>, verbose: bool,
                   events: seq<AgentEvent>, result: string, clock: Clock)
    ensures RunInvestigation(query, context, verbose, events, result, clock).0.context
         == Assign([], [("query", JStr(query))] + UserContext(context))
  {
    var es := Entries(query, context, verbose, events, result);
    StampContext(New(clock(0)), es, clock, 1);
    EntriesBindings(query, context, verbose, events, result);
  }

  /** A run's action log opens with `investigation_start`, which records the
      query and the caller's context, closes with `investigation_complete`,
      which previews the first 200 characters of the result, and in between
      holds one `agent_start` or `agent_end` action per hook call, in call
      order, when verbose; otherwise nothing. */
  lemma RunBracketed(query: string, context: Option<Fields>, verbose: bool,
                     events: seq<AgentEvent>, result: string, clock: Clock)
    ensures var actions := RunInvestigation(query, context, verbose, events, result, clock).0.actions;
      && |actions| == 2 + (if verbose then |events| else 0)
      && actions[0].kind == "investigation_start"
      && actions[0].description == "Starting investigation: " + query
      && actions[0].details == [("context", JObj(context.GetOr([])))]
      && actions[|actions| - 1].kind == "investigation_complete"
      && actions[|actions| - 1].details == [("result_preview", JStr(Preview(result, 200)))]
      && (verbose ==> forall i :: 0 <= i < |events| ==>
            actions[1 + i].kind == (if events[i].AgentStart? then "agent_start" else "agent_end"))
  {
    var actions := RunInvestigation(query, context, verbose, events, result, clock).0.actions;
    var entries := ActionEntries(actions);
    var hs := if verbose then HookActions(events) else [];
    RunActions(query, context, verbose, events, result, clock);
    assert entries == [StartEntry(query, context)] + hs + [CompleteEntry(result)];
    assert entries[0] == ActionEntry(actions[0]);
    assert entries[|actions| - 1] == ActionEntry(actions[|actions| - 1]);
    if verbose {
      forall i | 0 <= i < |events|
        ensures actions[1 + i].kind == (if events[i].AgentStart? then "agent_start" else "agent_end")
      {
        MiddleAt(StartEntry(query, context), hs, CompleteEntry(result), i);
        assert entries[1 + i] == ActionEntry(actions[1 + i]);
      }
    }
  }

  /** Every run leaves at least one finding, and the findings of the final
      extraction come last; without verbose hooks they are the only ones. */
  lemma RunLeavesFindings(query: string, context: Option<Fields>, verbose: bool,
                          events: seq<AgentEvent>, result: string, clock: Clock)
    ensures var fs := RunInvestigation(query, context, verbose, events, result, clock).0.findings;
      && |fs| >= |ExtractFindings(result)| >= 1
      && FindingDrafts(fs)[|fs| - |ExtractFindings(result)|..] == ExtractFindings(result)
      && (!verbose ==> FindingDrafts(fs) == ExtractFindings(result))
  {
    RunFindings(query, context, verbose, events, result, clock);
  }

  /** The query is the first context key. It keeps the query text unless the
      caller's context also binds `query`, whose last binding then wins;
      every other key holds its last binding in the caller's context. */
  lemma RunContextLookup(query: string, context: Option<Fields>, verbose: bool,
                         events: seq<AgentEvent>, result: string, clock: Clock, k: string)
    ensures var ctx := RunInvestigation(query, context, verbose, events, result, clock).0.context;
      && |Keys(ctx)| >= 1 && Keys(ctx)[0] == "query"
      && Get(ctx, k) == if LastBinding(UserContext(context), k).Some? then LastBinding(UserContext(context), k)
                        else if k == "query" then Some(JStr(query)) else None
  {
    var user := UserContext(context);
    var first := [("query", JStr(query))];
    RunContext(query, context, verbose, events, result, clock);
    AssignCons([], ("query", JStr(query)), user);
    assert Set([], "query", JStr(query)) == first;
    AssignKeepsOrder(first, user);
    AssignGet(first, user, k);
  }
}
