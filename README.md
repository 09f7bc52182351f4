# rapidcopper: the resolution and pipeline engine, in Dafny

rapidcopper is a command launcher. `rapidcopper rebuild-index` scans three
sources into an SQLite catalog:

- desktop entries become the `application` table;
- `action_*.py` and `pipe_*.py` files in the user's plugin directory, plus
  the `action_*` and `pipe_*` modules of the package's plugin namespace,
  become the `action` and `pipe` tables.

`rapidcopper do WORDS...` splits its words into stages at standalone `|`
tokens. It resolves the first word of the first stage to an application or
an action, runs it, and then passes each result to the pipe named by the
next stage.

This project models the core of `src/rapidcopper/cli.py` and proves
properties of that model. Each part keeps the form it has in the Python:

| file | models |
|---|---|
| `sequences.dfy` | Python's `split` with a one-element separator, its inverse `Join`, and the laws relating them |
| `pipes.dfy` | `do_break_pipes`, as the function `PipeGroups` and as the loop `BreakPipes` proved equal to it |
| `text.dfy` | ASCII `lower`, `startswith`/`endswith`, `split(sep)[-1]`, `split(c)[0]`, `s[s.index(c) + 1:]`, and `strip` with Python's `isspace` |
| `levenshtein.dfy` | the edit distance candidates are ranked by |
| `like.dfy` | SQLite's `LIKE` (`%`, `_`, ASCII case folding) and `command_expand_like` |
| `catalog.dfy` | the three tables and the `App`/`Action`/`Pipe` objects built from their rows |
| `resolver.dfy` | `query_action_app` and `query_pipe`: LIKE filter in table order, stable sort by distance (an insertion sort, as stable as Python's `sorted`), first five |
| `metadata.dfy` | plugin names, `check_is_desktop_file`, and the `name=`/`comment=` lookup in desktop entries |
| `console.dfy` | `typer.prompt` over a list of input lines, and `int()` of the answer |
| `indexer.dfy` | the `index_populate_*` loops as methods of a class `Index` whose fields are the three tables, plus `rebuild_index` |
| `dispatch.dfy` | `do`, as a specification function `DoSpec` and the loop `Do` proved equal to it |

What the program cannot see is passed in as a parameter:

- the directory listings and the files' lines;
- the first line of each plugin file, as `ast.literal_eval` reads it;
- the docstrings of the builtin plugins;
- the `run` of a plugin (a function from entry and arguments to a value);
- the lines the user types.

What `do` prints or launches is recorded in a trace of events.

The model keeps the code's behaviour where it is easy to overlook:

- A desktop entry with no `name=` line makes `next` raise `StopIteration`.
  Nothing catches it, so the whole rebuild aborts rather than skipping the
  file.
- A plugin file whose first line is not a literal makes `literal_eval` raise.
  That also aborts the rebuild rather than skipping the file.
- A builtin plugin module without a docstring inserts `NULL` into a
  `NOT NULL` column, which aborts the rebuild too.
- After an abort nothing is committed. `CREATE TABLE` already ran outside
  the insert transaction, so the index holds three empty tables.
- A pipe stage with no candidate does not raise `NotFoundErr`. It shows the
  empty list and asks for a choice. Any number then fails as
  `candidates[choice]` (`IndexError`).
- A negative choice counts from the end of the list, as Python indexing
  does; it is not an out-of-range error.

## Model

| member | source | states |
|---|---|---|
| Sequences.Split | src/rapidcopper/cli.py:248-256 | the groups between separators: one more group than there are separators, and no group holds the separator |
| Sequences.SplitJoin | src/rapidcopper/cli.py:248-256 | re-inserting the separator between the groups gives back the input |
| Sequences.SplitFlatten | src/rapidcopper/cli.py:248-256 | concatenating the groups gives the input with every separator removed |
| Sequences.SplitLastEmpty | src/rapidcopper/cli.py:255-256 | the last group is empty exactly when the input is empty or ends with the separator |
| Sequences.SplitSnoc | src/rapidcopper/cli.py:248-253 | one more token: a separator closes the current group and opens an empty one, any other token is appended to the current group |
| Pipes.PipeGroups | src/rapidcopper/cli.py:244-258 | no stage holds `\|`; the stages concatenated are the words without the `\|` tokens; there are as many stages as `\|` tokens, plus one when the words end in something other than `\|` |
| Pipes.PipeGroupsSplit | src/rapidcopper/cli.py:255-256 | the stages are the pieces between `\|` tokens, minus the empty last piece left by an empty input or a trailing `\|` |
| Pipes.PipeGroupsRoundTrip | src/rapidcopper/cli.py:244-258 | joining the stages with `\|` (plus an empty last stage for an empty input or a trailing `\|`) gives back the words |
| Pipes.BreakPipes | src/rapidcopper/cli.py:244-258 | the loop returns exactly `PipeGroups(args)` |
| Pipes.CommandThenPipe | src/rapidcopper/cli.py:244-258 | `cmd word \| pipe` becomes the stages `[cmd, word]` and `[pipe]` |
| Pipes.CommandAloneThenPipe | src/rapidcopper/cli.py:244-258 | `cmd \| pipe` becomes the stages `[cmd]` and `[pipe]` |
| Text.LastSegment | src/rapidcopper/cli.py:273 | `split(sep)[-1]` is a suffix of the text that does not contain `sep`, is preceded by `sep` when the text contains it, and is the whole text otherwise |
| Text.BeforeFirst | src/rapidcopper/cli.py:273 | `split(c)[0]` is a prefix without `c`, followed by `c` unless it is the whole text |
| Text.BeforeFirstIsSplitHead | src/rapidcopper/cli.py:273 | the prefix before the first `c` is the first piece of splitting the text at `c` |
| Text.AfterFirst | src/rapidcopper/cli.py:379-380 | the text is what comes before the first `c`, then `c`, then the result |
| Text.StripEndShape | src/rapidcopper/cli.py:363 | `rstrip` keeps a prefix that is empty or ends in a non-space character, and removes only white space |
| Text.StripStartShape | src/rapidcopper/cli.py:363 | `lstrip` keeps a suffix that is empty or starts with a non-space character, and removes only white space |
| Console.Prompt | src/rapidcopper/cli.py:134 | the prompt ends the input (`Abort`) exactly when every remaining line is empty; otherwise the answer is the first non-empty line and reading resumes after it |
| Console.ParseShowInt | src/rapidcopper/cli.py:144 | `int(str(i)) == i` for every integer `i` |
| Console.ParseIntIgnoresSpace | src/rapidcopper/cli.py:144 | white space around the answer does not change the number read |
| Console.StripIdempotent | src/rapidcopper/cli.py:363 | stripping twice is stripping once |
| Levenshtein.DistanceZeroIff | src/rapidcopper/cli.py:237 | the distance is 0 exactly when the two strings are equal |
| Levenshtein.DistanceAtMostLonger | src/rapidcopper/cli.py:237 | the distance is at most the length of the longer string |
| Levenshtein.DistanceAtLeastLengthGap | src/rapidcopper/cli.py:237 | the distance is at least the difference of the lengths |
| Levenshtein.DistanceSymmetric | src/rapidcopper/cli.py:237 | the distance is symmetric |
| Like.PercentMatchesAll | src/rapidcopper/cli.py:240-241 | the pattern `%` matches every name |
| Like.PrefixPattern | src/rapidcopper/cli.py:240-241 | for a token without wildcards, `t%` is a prefix test that ignores ASCII case |
| Like.ExpandLikeIsContains | src/rapidcopper/cli.py:240-241 | for a token without wildcards, `name LIKE '%t%'` holds exactly when the name contains the token, ignoring ASCII case |
| Like.SelfMatch | src/rapidcopper/cli.py:240-241 | every name matches the pattern built from itself |
| Resolver.Insert | src/rapidcopper/cli.py:237 | the result holds the sequence's entries plus the inserted one (as a multiset), and starts with either the new entry or the old head |
| Resolver.InsertKeepsSorted | src/rapidcopper/cli.py:237 | inserting into a sequence sorted by distance keeps it sorted |
| Resolver.SortByDistance | src/rapidcopper/cli.py:199 | the result is a permutation of the rows, sorted by distance to the token |
| Resolver.InsertWithDistance | src/rapidcopper/cli.py:237 | insertion puts the new entry ahead of every entry already at its own distance |
| Resolver.SortIsStable | src/rapidcopper/cli.py:199 | for every distance, the entries at that distance keep their query order |
| Resolver.WithDistanceAppend | src/rapidcopper/cli.py:199 | the rows at one distance in a concatenation are those of the first part, then those of the second |
| Resolver.PrefixKeepsTies | src/rapidcopper/cli.py:237 | `[:k]` keeps, for every distance, a prefix of the rows at that distance |
| Resolver.CandidatesKeepTieOrder | src/rapidcopper/cli.py:199 | for every distance, the kept rows at that distance are the first ones at that distance in query order |
| Resolver.TruncateSorted | src/rapidcopper/cli.py:199 | `[:k]` of a sorted sequence stays sorted, and every entry dropped is at least as far as every entry kept |
| Resolver.Candidates | src/rapidcopper/cli.py:237 | `sorted(...)[:5]` keeps `min(5, n)` rows, sorted, taken from the input, and drops none closer than a kept one; the order among equal distances is stated by Resolver.CandidatesKeepTieOrder |
| Resolver.Matching | src/rapidcopper/cli.py:188-197 | a row is selected exactly when it is in the table and its name is `LIKE` the pattern |
| Resolver.ActionAppMatchesShape | src/rapidcopper/cli.py:211-235 | every row collected matches the pattern; it is an application (only when no argument follows) or an action of the catalog |
| Resolver.PipeMatchesShape | src/rapidcopper/cli.py:188-197 | every row collected matches the pattern and is a pipe of the catalog |
| Resolver.QueryActionApp | src/rapidcopper/cli.py:202-237 | at most five candidates, sorted by distance, each matching `%command%`; an application is a candidate only when no argument follows |
| Resolver.QueryPipe | src/rapidcopper/cli.py:179-199 | at most five candidates, sorted by distance, each a pipe of the catalog matching `%command%`; ties keep table order (Resolver.QueryKeepsTieOrder) |
| Resolver.QueryKeepsTieOrder | src/rapidcopper/cli.py:179-237 | for both queries and every distance, the candidates at that distance are the first matching rows at that distance, in the order the tables are read |
| Resolver.CandidatesContainCommand | src/rapidcopper/cli.py:193 | for a token without wildcards, every candidate's name contains the token, ignoring ASCII case |
| Resolver.ExactNameRanksFirst | src/rapidcopper/cli.py:237 | when a row named exactly as the token is selected, the first candidate has that exact name |
| Resolver.QueryActionAppExactFirst | src/rapidcopper/cli.py:202-237 | an action named as the token (or, with no argument, an application) makes the first candidate an exact match |
| Resolver.QueryPipeExactFirst | src/rapidcopper/cli.py:179-199 | a pipe named as the token makes the first candidate an exact match |
| Resolver.CandidatesComplete | src/rapidcopper/cli.py:237 | a selected row is missing from the candidates only when five rows at most as far were returned |
| Resolver.QueryComplete | src/rapidcopper/cli.py:179-237 | every matching action, application (with no argument) or pipe is a candidate, unless five rows at most as far were returned |
| Resolver.SortKeepsAppsFirst | src/rapidcopper/cli.py:211-237 | sorting a list with its applications first keeps every application ahead of any action at the same distance |
| Resolver.QueryTiesKeepAppsFirst | src/rapidcopper/cli.py:211-237 | among candidates at the same distance, no action comes before an application |
| Metadata.PluginNameIsAfterLastPrefix | src/rapidcopper/cli.py:263-273 | a plugin file's name (lower-cased, cut at the first `.`) ends with the prefix followed by the plugin name, and that name holds neither the prefix nor a `.` |
| Metadata.BuiltinNameIsAfterLastPrefix | src/rapidcopper/cli.py:284-292 | a builtin module's last dotted component ends with the prefix followed by the plugin name, and that name holds neither the prefix nor a `.` |
| Metadata.DesktopFileIff | src/rapidcopper/cli.py:421-422 | a file is a desktop entry exactly when its name ends in `.desktop` in any ASCII case, or when it has no `.` and is `desktop` in any ASCII case |
| Metadata.FirstWithKey | src/rapidcopper/cli.py:361-362 | `next(...)` finds the first line whose lower-cased form starts with the key, and finds none exactly when no line does |
| Metadata.KeyValue | src/rapidcopper/cli.py:363-379 | for a line starting with `name=`/`comment=` in any case, stripping it and cutting after its first `=` gives the rest of the line after the key, right-stripped |
| Metadata.DesktopEntryFields | src/rapidcopper/cli.py:360-383 | parsing fails exactly when no line starts with `name=`; otherwise the name is the value of the first such line, and the description is the value of the first `comment=` line or `""` |
| Indexer.AccumulateOk | src/rapidcopper/cli.py:353-383 | an indexing loop runs to the end exactly when no entry raises |
| Indexer.AccumulateRows | src/rapidcopper/cli.py:353-383 | a loop that runs to the end inserts the rows of all contributing entries, in order |
| Indexer.AccumulateFirstFailure | src/rapidcopper/cli.py:353-383 | a loop that raises stops at its first failing entry, with exactly the rows of the entries before it |
| Indexer.AccumulateSticks | src/rapidcopper/cli.py:353-383 | once an entry has raised, later entries change nothing |
| Indexer.AccumulateAppend | src/rapidcopper/cli.py:261-297 | the two loops of a plugin indexer act as one loop over both sequences; the second runs only if the first did not raise |
| Indexer.AccumulateRowsFrom | src/rapidcopper/cli.py:353-383 | every inserted row is the row of some entry |
| Indexer.Index.constructor | src/rapidcopper/cli.py:386-418 | `index_setup` creates three empty tables |
| Indexer.Index.FillApplications | src/rapidcopper/cli.py:354-383 | the loop appends exactly the rows the entries contribute, until one raises; the plugin tables are untouched |
| Indexer.Index.FillPlugins | src/rapidcopper/cli.py:262-297 | the loop appends exactly the contributed rows to the table of its kind, until one raises; the other tables are untouched |
| Indexer.Index.PopulateApplication | src/rapidcopper/cli.py:353-383 | `index_populate_application` appends the rows of the desktop files and returns the exception that stopped it |
| Indexer.Index.PopulatePlugins | src/rapidcopper/cli.py:261-297 | `index_populate_action`/`index_populate_pipe` append the rows of the user files, then of the package modules, to their table |
| Indexer.ApplicationsOk | src/rapidcopper/cli.py:353-383 | the application indexer runs to the end exactly when every desktop entry has a `name=` line |
| Indexer.ExternalOk | src/rapidcopper/cli.py:262-278 | the user-file loop runs to the end exactly when every selected file's first line is a literal |
| Indexer.BuiltinOk | src/rapidcopper/cli.py:280-297 | the module loop runs to the end exactly when every selected module has a docstring |
| Indexer.PluginsOk | src/rapidcopper/cli.py:261-297 | a plugin indexer runs to the end exactly when both of these hold |
| Indexer.ApplicationRowsFrom | src/rapidcopper/cli.py:353-383 | every application row comes from a desktop entry: its location is the file's path, and its name and description are what the file's `name=`/`comment=` lines give |
| Indexer.ExternalRowFrom | src/rapidcopper/cli.py:262-278 | a row from the user-file loop is a selected file's: named after the prefix, described by its first line, located at its path |
| Indexer.BuiltinRowFrom | src/rapidcopper/cli.py:280-297 | a row from the module loop is a selected module's: named after the prefix, described by its docstring, located by its dotted name |
| Indexer.PluginRowsFrom | src/rapidcopper/cli.py:261-337 | every plugin row is a selected file's or module's, and its name holds neither the prefix nor a `.` |
| Indexer.BuildCatalogOk | src/rapidcopper/cli.py:101-120 | a rebuild commits exactly when every desktop entry has a `name=` line, every plugin file starts with a literal, and every plugin module has a docstring |
| Indexer.ApplicationsFailAtFirst | src/rapidcopper/cli.py:353-383 | a failing application indexer stops at the first desktop entry without a `name=` line, with the rows of the entries before it |
| Indexer.RebuildIndex | src/rapidcopper/cli.py:101-120 | `rebuild_index` commits the three tables the indexers build, or, on the first exception, leaves three empty tables and reports that exception |
| Dispatch.PyIndex | src/rapidcopper/cli.py:145 | `candidates[choice]` succeeds exactly when `-n <= choice < n`, and picks `choice` or `choice + n` |
| Dispatch.Invoke | src/rapidcopper/cli.py:95-98 | `e.run(*args)` fails exactly when an App is given arguments (`App.run` takes none), with that `TypeError` and nothing changed; an App without arguments is launched and `current` kept; any other entry runs, is recorded with its arguments, and its result becomes `current` |
| Dispatch.AskArgumentsAndRun | src/rapidcopper/cli.py:134-135 | the end of the input stops it with nothing changed; otherwise an Action runs on the answer split at single spaces, reading resumes after the answer, and the result becomes `current` |
| Dispatch.LaunchOrAsk | src/rapidcopper/cli.py:131-135 | an App is launched with no prompt; anything else stops exactly at the end of the input, and otherwise runs on the words of the answer |
| Dispatch.Choose | src/rapidcopper/cli.py:142-145 | the list is shown first; a pick happens exactly when an answer comes, is a number and indexes the list, and is then `candidates[choice]` with Python indexing; otherwise the error says which step failed; reading resumes after the answer |
| Dispatch.FirstStage | src/rapidcopper/cli.py:127-159 | no command is the `TypeError`; `NotFoundErr` exactly when the command has no candidate, with nothing changed; no App gets arguments; a single candidate goes to `RunCommand` at once; among several, a failed pick stops the stage and a valid pick goes to `RunCommand` with the picked entry |
| Dispatch.FirstStageOn | src/rapidcopper/cli.py:130-159 | no candidate raises `NotFoundErr`; a single one goes to `RunCommand` at once; among several, a failed pick stops the stage there and a valid pick goes to `RunCommand` with `candidates[choice]` after the list was shown; when Apps are candidates only for one-word commands, no App is run with arguments |
| Dispatch.RunCommand | src/rapidcopper/cli.py:130-156 | it fails exactly for an App given words, or for a non-App one-word command at the end of the input; otherwise an App is launched, a one-word command runs on the typed words, and a longer one on its other words |
| Dispatch.LaterStage | src/rapidcopper/cli.py:161-171 | a falsy `current` skips the stage; an empty stage stops; otherwise the single candidate of `query_pipe(group[0])` runs on `current` with no prompt, or among any other number a failed pick stops the stage and a valid pick runs `candidates[choice]` on `current`; the result is the new `current` |
| Dispatch.PipeStageOn | src/rapidcopper/cli.py:164-171 | a single candidate runs on `current` with no prompt; otherwise a failed pick stops the stage, and a valid pick of a non-App runs it on `current`; the result becomes `current` |
| Dispatch.Pipeline | src/rapidcopper/cli.py:161-171 | the pipe stages only add to the trace, and never raise `NotFoundErr` or run an App with arguments |
| Dispatch.Do | src/rapidcopper/cli.py:123-171 | the loop over the stages computes exactly `DoSpec` |
| Dispatch.FalsySkipsRest | src/rapidcopper/cli.py:161 | once `current` is falsy, the remaining stages add nothing to the trace, leave `current` as it is and raise nothing |
| Dispatch.SingleAppLaunchesAndStops | src/rapidcopper/cli.py:130-132 | a one-word command whose only candidate is an App launches it and nothing else happens |
| Dispatch.NotFoundIff | src/rapidcopper/cli.py:158-159 | `do` raises `NotFoundErr` exactly when the first command has no candidate, and then has shown and run nothing and `current` is still `None` |
| Dispatch.FirstStageOnSingle | src/rapidcopper/cli.py:137-138 | a single non-App candidate of a command with words runs at once, with the words as arguments |
| Dispatch.SingleCandidateRunsWithWords | src/rapidcopper/cli.py:137-138 | a command with words and a single candidate runs that Action first, with the words as arguments |
| Dispatch.PickedCandidateRuns | src/rapidcopper/cli.py:151-156 | for a command with words and several candidates, a valid typed number shows the list and runs `candidates[choice]` (from the end when negative) on the command's other words |
| Dispatch.PickedIsAction | src/rapidcopper/cli.py:211-237 | a candidate of a command with words is an Action |
| Dispatch.FirstChoiceState | src/rapidcopper/cli.py:152-154 | a pick at the start of `do` leaves the shown list as the whole trace and resumes reading after the answer |
| Dispatch.RunCommandWithWords | src/rapidcopper/cli.py:156 | an Action picked for a command with words runs on those words |
| Dispatch.PickedCandidateDo | src/rapidcopper/cli.py:123-156 | `do` on a one-stage command with words and several candidates, given a valid number: the list is shown, `candidates[choice]` runs on the words, and `do` ends with its result |
| Dispatch.TwoStageDo | src/rapidcopper/cli.py:123-171 | when both stages of a two-stage command complete, `do` ends where the second left off, without error |
| Dispatch.RunThenRun | src/rapidcopper/cli.py:135-165 | running an entry and then a pipe on its result records both runs, in order, and leaves the pipe's result as `current` |
| Dispatch.SinglePipeStage | src/rapidcopper/cli.py:161-165 | with a truthy `current`, a pipe stage with a single candidate runs it on `current` |
| Dispatch.LastStage | src/rapidcopper/cli.py:161-171 | with two stages, the pipe stages end where the second stage left off |
| Dispatch.SingleActionAsks | src/rapidcopper/cli.py:130-135 | a one-word command whose only candidate is an Action prompts once and runs on the words of the answer |
| Dispatch.ActionThenPipe | src/rapidcopper/cli.py:123-171 | `A \| P`, with a single Action for `A` and a single pipe for `P`: the Action runs on the typed words, the pipe on its result, and `do` ends with the pipe's result |
| Dispatch.ActionBarPipe | src/rapidcopper/cli.py:123-171 | the same for the words `a \| p` |
| Dispatch.SingleCandidateRunsOnWord | src/rapidcopper/cli.py:137-138 | a two-word command with a single candidate runs it on the second word, with no prompt |
| Dispatch.CommandWordThenPipe | src/rapidcopper/cli.py:123-171 | `A w \| P`, with a single candidate for `A w` and a single pipe for `P`: the candidate runs on `w`, the pipe on its result, and `do` ends with the pipe's result |
| Dispatch.CommandWordBarPipe | src/rapidcopper/cli.py:123-171 | the same for the words `a w \| p` |
| Dispatch.NeverWrongArity | src/rapidcopper/cli.py:130-149 | `do` never runs an App with arguments |
| Dispatch.LeadingBarMissingCommand | src/rapidcopper/cli.py:126-128 | words starting with `\|` leave the first stage empty, so `do` stops at once with nothing done |

## Left out

- Lower-casing and case-insensitive `LIKE` are ASCII only. Python's `str.lower` and the `Levenshtein` package work on Unicode; SQLite's `LIKE` folds ASCII only.
- `ast.literal_eval` of a plugin's first line is an input: the string it yields, or `None` when it raises. A literal of another type (a number, say) is not modelled.
- Console.ParseInt: reads ASCII digits only. Python's `int` also accepts underscores between digits and non-ASCII decimal digits.
- The text that `display` and `show_candidates` print is not modelled. The trace records which candidates were shown, in order.
- `App.run` (`gtk-launch` in a subprocess) is recorded as an event. Process failures are not modelled.
- Plugin loading (`importlib`) and each plugin's `run` are the `Runner` parameter. Exceptions raised inside a plugin are not modelled.
- Plugin loading at run time: `is_builtin` is read back from SQLite as the integer 0 or 1, so `self.is_builtin is False` (src/rapidcopper/cli.py:39 and 69) is never true, and a user plugin's file path is handed to `import_module` as if it were a module name. Both kinds of plugin are the `Runner` parameter here, so this is not modelled.
- Directory walking, `XDG_DATA_DIRS`, the home directory, `os.makedirs` and deleting the old index file are outside the model. The indexers take the listings as inputs.
- The `path` property of the three dataclasses returns `Path(self.description)`. Nothing in the core uses it, so it is not modelled.
- Queries return rows in insertion order. SQLite without `ORDER BY` gives no such guarantee; for these tables it is the usual rowid order.
- `tui.py`, the list-based front end, is not part of this model.
- Resolver.CandidatesContainCommand: the equivalence between `LIKE '%t%'` and containment is proved only for tokens without `%` and `_`. `LikeMatch` itself models the wildcards in full.
- Text.StripEnd and Text.StripStart: their own contracts bound only the length. What they remove is stated by Text.StripEndShape and Text.StripStartShape.
- In the first stage, the code tests "one candidate and one word", then "one candidate", then "several and one word". The model tests the number of candidates first, then the number of words (Dispatch.FirstStageOn, Dispatch.RunCommand). Both orders give the same result for every input.
