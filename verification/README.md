# kpi-agent core, modelled in Dafny

kpi-agent is a command-line investigation agent for a sales database. A crew
of LLM agents answers a question. The program around the crew keeps a
*scratchpad* of the investigation and pulls findings out of the crew's
free-text answer. Its tools turn database rows into text for the agents.
This project models that deterministic core as pure functions over
immutable datatypes, and proves what the code promises about it.

- `wrappers.dfy` (`Wrappers`): `Option` and `Result`.
- `strings.dfy` (`PyStrings`): the Python `str` operations the code relies on.
  - `lower` covers ASCII only.
  - `strip` uses Python's whitespace set.
  - `find`, `split`, `split(sep, 1)` and `join` are included.
  - So is the decimal rendering of a natural number.
- `dicts.dfy` (`Dicts`): a Python dict as an insertion-ordered association list.
  - `d[k] = v` keeps an existing key's position and appends a new key.
  - `Assign` runs a sequence of such writes.
- `json.dfy` (`JsonValues`): the JSON values stored in details, evidence and context.
- `sequences.dfy` (`Sequences`): list comprehensions (`[f(x) for x in xs if p(x)]`) and their algebra.
- `scratchpad.dfy` (`Scratchpads`): the `Scratchpad` class.
  - It holds the action log, the finding log, the context dict and the start time.
  - Each method is modelled as a function from the old scratchpad to the new one.
  - Any sequence of calls is modelled as `PerformAll`.
- `report.dfy` (`Reports`): `print_report` as the sequence of strings handed to `print`.
- `snapshot.dfy` (`Snapshots`): `to_dict`, and `from_json` at the level of the parsed JSON tree.
- `extraction.dfy` (`Extraction`): the two finding extractors of `run_investigation`.
  - One splits the final answer at `"\n## "`, with its fallback.
  - The other is the verbose hook's heading sniffer.
- `investigation.dfy` (`Investigation`): `parse_context`, and `run_investigation` as the list of scratchpad calls it makes.
- `sqltool.dfy` (`SqlTool`): `SQLTool.run` and `run_and_format`, including the select-list column-name inference.
- `schema.dfy` (`Schemas`): the `SchemaTool` parts that do not touch the database.
  - Rows become records.
  - Foreign keys are grouped by table.
  - `format_table_schema` and `generate_schema_summary` render Markdown.

Clock readings, the crew's hook calls and final answer, and what the database
returns (rows or an exception message) are all parameters.

A level-two heading starts a finding section only after a line break,
because the code splits the answer at `"\n## "`. A heading at the very start
of the answer is not a section break: an answer that begins with
`## Finding: …` and has no later `"\n## "` yields only the "Investigation
Results" fallback finding (`Extraction.LeadingHeadingFallsBack`).

## Model

| member | source | states |
|---|---|---|
| Scratchpads.New | agent/scratchpad.py:14-19 | a new scratchpad has empty logs and an empty context, and starts at the clock reading it is given |
| Scratchpads.LogAction | agent/scratchpad.py:21-37 | exactly one action is appended at the end and earlier actions are unchanged; it carries the given timestamp, type and description; details default to an empty object; findings, context and start time are untouched |
| Scratchpads.LogFinding | agent/scratchpad.py:39-66 | exactly one finding is appended at the end; importance is stored verbatim; related actions default to `[]` and evidence to `{}`; indices are not checked; nothing else changes |
| Scratchpads.AddContext | agent/scratchpad.py:68-76 | the key reads back as the new value; the key list is unchanged for a known key and grows by the key at the end otherwise; the context stays a dict |
| Scratchpads.ContextOverwrite | agent/scratchpad.py:68-118 | writing a key twice reads back the second value, lists the key once among the summary's context keys, and leaves every other key's value unchanged |
| Scratchpads.GetContext | agent/scratchpad.py:106-118 | without a key the whole context is returned; with a key its stored value is returned, or `None` when it is absent |
| Scratchpads.LevelOfName | agent/scratchpad.py:92-99 | low, medium, high and critical rank 0 to 3, case-insensitively; a positive rank comes only from one of those names |
| Scratchpads.AtLeast | agent/scratchpad.py:101-104 | keeps exactly the findings ranked at least the threshold, as a subsequence of the log |
| Scratchpads.AtLeastAppend | agent/scratchpad.py:101-104 | the filter distributes over concatenation, so it is stable |
| Scratchpads.GetFindings | agent/scratchpad.py:82-104 | a finding is returned iff it is logged and ranks at least the threshold's rank; the result keeps log order |
| Scratchpads.LowThresholdKeepsAll | agent/scratchpad.py:92-104 | `get_findings("low")`, and any threshold naming no higher level, return every finding in order |
| Scratchpads.ThresholdMonotone | agent/scratchpad.py:99-104 | raising the threshold yields a subsequence of the looser result |
| Scratchpads.HighTitlesAreHighFindings | agent/scratchpad.py:137-140 | the high-importance titles are the titles of `get_findings("high")`, in order |
| Scratchpads.GetSummary | agent/scratchpad.py:120-141 | the counts are the log lengths; the context keys are the context's keys, one per binding, in insertion order; the high-importance titles are those of the findings ranked high or critical; the start and end times are passed through |
| Scratchpads.LogsKeepCallOrder | agent/scratchpad.py:21-80 | after any call sequence, the action history and the unfiltered findings are the old entries followed by the requested ones in call order; the start time never changes and the context stays a dict |
| Reports.WithImportance | agent/scratchpad.py:159-160 | keeps exactly the findings whose lower-cased importance is the given name, as a subsequence |
| Reports.Header | agent/scratchpad.py:145-155 | the header has eight printed lines, opens with the rule, and reports the action and finding counts |
| Reports.Report | agent/scratchpad.py:143-190 | the report opens and closes with the rule, reports the two counts, then starts the key-findings section |
| Reports.CriticalBeforeHigh | agent/scratchpad.py:158-172 | critical findings are listed first, numbered from 1; the high ones follow under their own heading, numbered from 1 again |
| Reports.NoHighLineIffNoHighFindings | agent/scratchpad.py:174-175 | the "No high or critical findings" line appears iff `get_findings("high")` is empty |
| Reports.OtherFindings | agent/scratchpad.py:177-182 | the other-findings section lists exactly the medium findings by title, numbered from 1, and is absent when there are none |
| Reports.LowFindingNotReported | agent/scratchpad.py:157-188 | inserting a low or unknown-importance finding anywhere changes the report only in its finding count |
| Reports.ActionLog | agent/scratchpad.py:184-188 | every action is listed in log order, numbered from 1 |
| Reports.LoggedActionListedLast | agent/scratchpad.py:184-188 | a newly logged action appears as the last line of the action log, with the next number |
| Snapshots.DecodeStartTime | agent/scratchpad.py:249-252 | a missing or falsy stored start time leaves the load-time clock reading; a non-empty string is restored |
| Snapshots.FromDict | agent/scratchpad.py:241-254 | a non-object is rejected; a restored scratchpad's context is a dict; a missing `actions`, `findings` or `context` member restores as empty, and a missing `start_time` leaves the load-time clock reading |
| Snapshots.UnreadMemberIgnored | agent/scratchpad.py:241-254 | appending a member other than `actions`, `findings`, `context` and `start_time`, such as `summary`, does not change what is loaded |
| Snapshots.ActionsRoundTrip | agent/scratchpad.py:199-201 | the written action list reads back as the same actions |
| Snapshots.FindingsRoundTrip | agent/scratchpad.py:199-201 | the written finding list reads back as the same findings |
| Snapshots.RoundTrip | agent/scratchpad.py:192-254 | reading back `to_dict` restores actions, findings, context and start time exactly; the summary is ignored, whatever clock readings were taken |
| Snapshots.EmptySnapshot | agent/scratchpad.py:241-254 | an empty object reads as a fresh scratchpad: missing members default to empty containers |
| Extraction.LinesAfterFirst | agent/run_agent.py:185-187 | `lines[0]` is the first line, and the joined remaining lines are the text after the first line break |
| Extraction.SectionDraftFromLines | agent/run_agent.py:185-193 | a matching section's finding has the stripped first line as title, the stripped remaining lines as description, and importance "high" |
| Extraction.SectionDraftsAppend | agent/run_agent.py:182-194 | the drafts of two stretches of sections are those of the first followed by those of the second; with the one-section case of `SectionDrafts` (one "high" draft iff the section matches), each matching section yields exactly one finding, in section order, repeats included |
| Extraction.SectionDraftsMembers | agent/run_agent.py:182-194 | the drafts are exactly those of the sections whose lower-cased text starts with one of the four keywords |
| Extraction.ExtractFindings | agent/run_agent.py:179-204 | there is always at least one finding; the single fallback finding appears iff no section matched; otherwise the findings are the section drafts |
| Extraction.ExtractedFromSections | agent/run_agent.py:182-194 | unless extraction falls back, every finding comes from a matching section and is "high" |
| Extraction.LeadingHeadingFallsBack | agent/run_agent.py:182-184 | a text starting with a `## ` heading and no later `"\n## "` falls back, because its only section starts with `#` |
| Extraction.TwoSections | agent/run_agent.py:182 | splitting at `"\n## "` cuts the text exactly where the break was placed |
| Extraction.HeadedSectionExtracted | agent/run_agent.py:182-194 | a matching heading after a non-matching introduction yields exactly one finding: heading as title, body as description |
| Extraction.FindingSectionExtends | agent/run_agent.py:184 | whether a section matches depends only on its start |
| Extraction.HeadingDrafts | agent/run_agent.py:154-162 | a single line yields one finding iff it is a heading line, titled by the line with `#` and then whitespace stripped, "medium"; any other line yields none; every finding comes from a heading line and every heading line gives one |
| Extraction.HeadingDraftsAppend | agent/run_agent.py:155-162 | the findings of two stretches of lines are those of the first followed by those of the second, so there is one finding per heading line, in line order, repeats included |
| Extraction.SniffFindings | agent/run_agent.py:153-162 | nothing is sniffed unless the output mentions a finding or an anomaly, in any case; then the findings are those of the output's lines split at `"\n"`, at most one per line |
| Extraction.HeadingMarkIsHash | agent/run_agent.py:156 | testing for `#`, `##` or `###` is the same as testing for `#` |
| Extraction.IndentedHeadingKeepsHashes | agent/run_agent.py:156-157 | an indented heading is recognised, but its title keeps the `#` marks, because they are stripped from the raw line's ends only |
| Investigation.ParseContext | agent/run_agent.py:86-99 | the parsed context is a dict with each key once |
| Investigation.ParseContextLookup | agent/run_agent.py:88-97 | each key reads as its last binding among the pieces that contain `=`: other pieces are dropped and a later key overwrites an earlier one |
| Investigation.ParsedBindingsClean | agent/run_agent.py:92-97 | a parsed key never contains `,` or `=`, and a value never contains `,` |
| Investigation.ParseRenderRoundTrip | agent/run_agent.py:86-99 | parsing `k1=v1,k2=v2,…` gives back a dict with clean keys and values, in order |
| Investigation.RunInvestigation | agent/run_agent.py:102-206 | returns the crew's result unchanged, with a scratchpad started at the first clock reading whose context is a dict |
| Investigation.RunContext | agent/run_agent.py:115-119 | the context is the query written first, then the caller's context in order |
| Investigation.RunContextLookup | agent/run_agent.py:115-119 | "query" is the first key; a key reads as the caller's last binding, else the query for "query", else absent |
| Investigation.RunActions | agent/run_agent.py:121-176 | the action log is the start action, then the hook actions only when verbose, then the completion action |
| Investigation.RunBracketed | agent/run_agent.py:121-176 | `investigation_start` is the first action and carries the caller's context; `investigation_complete` is the last and carries the 200-character preview; hook actions lie between, in event order |
| Investigation.RunFindings | agent/run_agent.py:152-204 | the findings are the sniffed ones (only when verbose), then the extracted ones; none has related actions or evidence |
| Investigation.RunLeavesFindings | agent/run_agent.py:178-204 | a run always ends with the extracted findings, at least one; without verbose they are all the findings |
| SqlTool.ColumnPart | tools/run_sql.py:48 | the select list is the stripped text from just after the first `select` of the lower-cased query up to the next `select` or `from`, or to the end; the text it is stripped from contains neither keyword |
| SqlTool.ItemName | tools/run_sql.py:49-51 | a column name is the text after the last space or dot of the stripped item: a tail of it with no space or dot, either the whole item or preceded by a space or dot |
| SqlTool.AfterLastSpaceOrDotUnique | tools/run_sql.py:49-51 | that description determines the name: two texts that both meet it are equal |
| SqlTool.InferredColumns | tools/run_sql.py:45-51 | with a `select`, the select list is cut at its commas, the pieces join back to it, and each piece gives the name at the same position; so there is one more name than commas, and no name contains a space or dot |
| SqlTool.FallbackColumns | tools/run_sql.py:52-54 | without a `select`, the names are `column_0` and so on up to the row width, all different |
| SqlTool.Run | tools/run_sql.py:21-97 | a failure carries the query; a table holds the fetched rows, at least one, each as wide as the column list |
| SqlTool.RunOutcomes | tools/run_sql.py:32-97 | `run` never raises; it fails iff the executor raised or the rows do not fit the names; it reports no results iff no rows came back |
| SqlTool.RunAndFormatBranches | tools/run_sql.py:110-119 | an error gives the cross mark and the message; no rows give the fixed message; otherwise the row count heads the preview |
| SqlTool.FormatTellsBranches | tools/run_sql.py:110-119 | the text starts with the cross mark iff the query failed, and is the no-results message iff no rows came back |
| Schemas.GetTableInfo | tools/get_schema.py:113-153 | one column record per column row, in row order |
| Schemas.ColumnRecordFaithful | tools/get_schema.py:113-123 | `nullable` is true iff `is_nullable` is "YES"; the row can be recovered from its record when `is_nullable` is "YES" or "NO" |
| Schemas.GroupLookup | tools/get_schema.py:200-213 | under each table the grouping holds exactly that table's relations in row order; a table without foreign-key rows is absent |
| Schemas.GroupKeys | tools/get_schema.py:200-213 | a table is a key iff some foreign-key row names it |
| Schemas.GroupCounts | tools/get_schema.py:200-213 | every foreign-key row is filed exactly once, and no table has an empty list |
| Schemas.TableSchemaOpens | tools/get_schema.py:225-272 | a description opens with the table's title line; a failure gives the error text naming the table; the first character tells the two apart |
| Schemas.ColumnLinesPlaced | tools/get_schema.py:237-244 | one table line per column, in column order, right after the header rows |
| Schemas.TypeInfoSuffix | tools/get_schema.py:240-242 | the type cell starts with the data type and is longer iff the maximum length is present and non-zero |
| Schemas.NullableCell | tools/get_schema.py:238 | the nullable cell is "YES" or "NO", and "YES" iff the catalogue said "YES" |
| Schemas.ReferencesFilled | tools/get_schema.py:254-256 | the References cell is non-empty iff both the foreign table and the foreign column are present |
| Schemas.SectionsShown | tools/get_schema.py:232-267 | the Columns heading is always present; the Constraints and Indexes headings appear iff there are constraints or indexes respectively |
| Schemas.RowCountsAnswer | tools/get_schema.py:289-291 | the row counts are collected iff every table answers, in table order; otherwise the error is the first failing table's |
| Schemas.SummaryErrors | tools/get_schema.py:281-304 | the summary reports the table list's error first, then the foreign keys', then the first failing table's; with no failure it is the rendered summary |
| Schemas.SummaryHeading | tools/get_schema.py:294-299 | a `### table` heading appears iff some foreign-key row belongs to that table |
| Schemas.SummaryLength | tools/get_schema.py:285-299 | one line per table in order; each foreign-key row gives exactly one arrow line; each table with keys adds a heading and an empty line |

## Left out

- Wall clock: `datetime.now()` readings are parameters (an opaque ISO text, or a `clock` function over call steps).
  - `duration_seconds` and its `:.2f` rendering are not modelled.
  - `end_time` is passed in.
  - The `%H:%M:%S` rendering of an action's time is a parameter of the report.
- `datetime.fromisoformat` is not modelled. Any non-empty stored start time is taken as valid.
- Character-level JSON: `to_json`, `json.dumps` with `default=str`, `json.loads` and `save_to_file` are not modelled. The round trip is stated on the JSON tree.
- Snapshots.FromDict: the `details` and `evidence` objects are kept as the parsed member list, duplicates included. `json.loads` builds a dict at every level, so a repeated member name inside them would keep only its last value. The top-level members and the context are looked up as that dict would be.
- Snapshots.FromDict: it is stricter than `from_json`. An action, finding or context that is not shaped as `to_dict` writes it is rejected, not stored verbatim. The round-trip property concerns only what `to_dict` writes.
- JSON numbers are integers only. Floating-point values in details, evidence and context, which Python can hold, are not modelled.
- `lower` is ASCII-only. `str.lower()` also lowers non-ASCII letters, so for `SELECT Ärger FROM t` the code infers `ärger` and the model infers `Ärger`. The keyword tests (`select`, `from`, `finding`, `anomaly`, the section keywords) and the importance names are ASCII and unaffected.
- The crew: `create_crew`, `kickoff()` and hook registration belong to a foreign framework. The hook calls the crew makes and its final answer are parameters.
- Printing: the `print` calls of the hooks, `run_investigation` and `main` are not modelled. `print_report` is modelled as the list of its `print` arguments.
- `main`, `argparse`, `load_dotenv` and the environment checks are not modelled.
- Extraction's `try`/`except`: nothing inside the `try` can raise on a string result, so the error branch is unreachable. It is not modelled.
- The database: `execute_query`, the connection test and the SQL text of the introspection queries are outside the model. Their rows, or the exception message, are inputs.
- `get_tables` and `get_all_schemas` only run queries. They are not modelled beyond the table list and row counts used by the summary.
- SqlTool.Run: the pandas DataFrame is reduced to its width check. A rectangular result with as many names as row values succeeds, and anything else fails.
  - The failure message is a stand-in for pandas' text.
  - The numeric statistics, the `to_markdown` preview and the `.4f` formatting are left out. The preview and statistics text is the `body` parameter of `RunAndFormat`.
  - The per-row records of `to_dict(orient='records')` are not modelled.
- SqlTool.InferredColumns: duplicate inferred names are allowed, as in the code. The model does not describe how pandas handles them.
- Schemas.GenerateSchemaSummary: `get_table_info` runs four queries per table. The summary reads only the row count, so each table's call is modelled as one `Result<nat, string>`.
- The other repository files are not part of this model: the CrewAI agent and task configuration, the database seeding script, the summariser over an external LLM API, and the tracing script.
