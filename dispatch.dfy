/** `do`: split the arguments into stages at `|`, resolve the first stage
    against applications and actions and run it, then hand each result to
    the pipe the next stage names, for as long as the result is truthy.
    Plugins' `run` is a parameter; the prompts read from a list of input
    lines; what is printed or launched is recorded as a trace. */
module Dispatch {
  import opened Wrappers
  import opened Sequences
  import opened Catalog
  import opened Resolver
  import opened Pipes
  import opened Console

  /** The Python values a plugin's `run` may return, as far as `do` looks
      at them: `None`, a string, or anything else with its truthiness. */
  datatype Value = NoneValue | Str(s: string) | Other(id: nat, truthy: bool)

  /** Python truthiness, which `elif current:` tests. */
  predicate Truthy(v: Value)
  {
    match v
    case NoneValue => false
    case Str(s) => s != ""
    case Other(_, t) => t
  }

  /** The `run` of an Action or Pipe: the value it returns for the
      arguments it receives. */
  type Runner = (Entry, seq<Value>) -> Value

  /** What a user sees or causes: a candidate list printed by
      `show_candidates`, an application launched, a plugin run. */
  datatype Event = Shown(candidates: seq<Entry>) | Launched(app: AppRow) | Ran(entry: Entry, args: seq<Value>)

  /** The exceptions that end `do`: `NotFoundErr`; the `TypeError` of
      `query_action_app()` without a command; the `IndexError` of
      `group[0]` on an empty later stage and of `candidates[choice]`; the
      `ValueError` of `int`; the `Abort` at the end of the input; the
      `TypeError` of an App run with arguments. */
  datatype Error = NotFound | MissingCommand | EmptyStage | ChoiceOutOfRange | NotANumber | NoMoreInput | WrongArity

  /** `current`, the input not yet read, and what happened so far. */
  datatype State = State(current: Value, input: seq<string>, trace: seq<Event>)

  datatype StageResult = Next(state: State) | Stop(state: State, error: Error)

  datatype Outcome = Outcome(trace: seq<Event>, current: Value, error: Option<Error>)

  /** Words passed as string arguments. */
  function Strs(words: seq<string>): (vs: seq<Value>)
    ensures |vs| == |words| && forall i :: 0 <= i < |words| ==> vs[i] == Str(words[i])
  {
    seq(|words|, i requires 0 <= i < |words| => Str(words[i]))
  }

  /** `candidates[choice]` on a list of `n` entries: Python counts a
      negative index from the end; anything else raises `IndexError`. */
  function PyIndex(n: nat, choice: int): (r: Option<nat>)
    ensures r.Some? <==> -(n as int) <= choice < n
    ensures r.Some? ==> r.value < n && (r.value == choice || r.value == choice + n)
  {
    if 0 <= choice < n then Some(choice)
    else if -(n as int) <= choice < 0 then Some(n + choice)
    else None
  }

  /** `before` is the start of `after`: what happened is never undone. */
  predicate Grows(before: seq<Event>, after: seq<Event>)
  {
    |before| <= |after| && after[..|before|] == before
  }

  /** `t` extends `before` with a last event that ran an entry of `cands`
      on `args`, and `current` is what that run returned. */
  predicate RanLast(before: seq<Event>, t: State, cands: seq<Entry>, args: seq<Value>, run: Runner)
  {
    |t.trace| > |before|
    && var last := t.trace[|t.trace| - 1];
       last.Ran? && last.entry in cands && last.args == args && t.current == run(last.entry, args)
  }

  /** `t` extends `before` with a last event that ran a pipe of `cat` on
      `args`, and `current` is what that run returned. */
  predicate RanPipe(before: seq<Event>, t: State, cat: Catalog, args: seq<Value>, run: Runner)
  {
    |t.trace| > |before|
    && var last := t.trace[|t.trace| - 1];
       last.Ran? && last.entry.Pipe? && last.entry.pipe in cat.pipes
       && last.args == args && t.current == run(last.entry, args)
  }

  lemma GrowsTrans(a: seq<Event>, b: seq<Event>, c: seq<Event>)
    requires Grows(a, b) && Grows(b, c)
    ensures Grows(a, c)
  {
    assert c[..|a|] == c[..|b|][..|a|];
  }

  /** The state after the application `a` is launched: `App.run` returns
      nothing that is assigned, so `current` is unchanged. */
  function Launch(a: AppRow, s: State): State
  {
    State(s.current, s.input, s.trace + [Launched(a)])
  }

  /** The state after the Action or Pipe `e` ran on `args`: what it
      returned is the new `current`. */
  function RunEntry(run: Runner, e: Entry, args: seq<Value>, s: State): State
  {
    State(run(e, args), s.input, s.trace + [Ran(e, args)])
  }

  /** The arguments typed at "Enter arguments: ": the answer split at every
      single space. */
  function TypedArgs(line: string): seq<Value>
  {
    Strs(Split(line, ' '))
  }

  /** `e.run(*args)`: an App takes no argument, launches, and leaves
      `current` as it was (its result is never assigned); an Action or Pipe
      returns the new `current`. */
  function Invoke(run: Runner, e: Entry, args: seq<Value>, s: State): (r: StageResult)
    ensures r.Stop? <==> e.App? && args != []
    ensures r.Stop? ==> r == Stop(s, WrongArity)
    ensures e.App? && args == [] ==> r == Next(Launch(e.app, s))
    ensures !e.App? ==> r == Next(RunEntry(run, e, args, s))
    ensures Grows(s.trace, r.state.trace)
  {
    if e.App? then
      if args == [] then Next(Launch(e.app, s))
      else Stop(s, WrongArity)
    else Next(RunEntry(run, e, args, s))
  }

  /** "Enter arguments: ", then the answer split at every single space is
      what the Action runs with. */
  function AskArgumentsAndRun(run: Runner, e: Entry, s: State): (r: StageResult)
    ensures r.Stop? <==> Prompt(s.input).Eof? || e.App?
    ensures Prompt(s.input).Eof? ==> r == Stop(s, NoMoreInput)
    ensures !e.App? && r.Stop? ==> r.error == NoMoreInput
    ensures !e.App? && Prompt(s.input).Answer? ==>
              r == Next(RunEntry(run, e, TypedArgs(Prompt(s.input).line), State(s.current, Prompt(s.input).rest, s.trace)))
    ensures Grows(s.trace, r.state.trace)
  {
    match Prompt(s.input)
    case Eof => Stop(s, NoMoreInput)
    case Answer(line, rest) => Invoke(run, e, TypedArgs(line), State(s.current, rest, s.trace))
  }

  /** A candidate picked for a one-word command: an App launches, anything
      else first asks for its arguments; only the end of the input can stop
      it. */
  function LaunchOrAsk(run: Runner, e: Entry, s: State): (r: StageResult)
    ensures r.Stop? ==> r.error == NoMoreInput
    ensures e.App? ==> r == Next(Launch(e.app, s))
    ensures !e.App? ==> (r.Stop? <==> Prompt(s.input).Eof?)
    ensures !e.App? && r.Next? ==>
              Prompt(s.input).Answer?
              && r.state == RunEntry(run, e, TypedArgs(Prompt(s.input).line), State(s.current, Prompt(s.input).rest, s.trace))
    ensures Grows(s.trace, r.state.trace)
  {
    if e.App? then Invoke(run, e, [], s) else AskArgumentsAndRun(run, e, s)
  }

  datatype Choice = Chosen(entry: Entry, state: State) | NoChoice(state: State, error: Error)

  /** `show_candidates(candidates)`, then `candidates[int(typer.prompt(...))]`:
      the list is shown first, and the pick is the entry the typed number
      indexes (from the end when negative) unless the input ends, the answer
      is not a number, or the number is no index. */
  function Choose(cands: seq<Entry>, s: State): (c: Choice)
    ensures c.Chosen? <==>
              Prompt(s.input).Answer? && ParseInt(Prompt(s.input).line).Some?
              && PyIndex(|cands|, ParseInt(Prompt(s.input).line).value).Some?
    ensures c.Chosen? ==> c.entry == cands[PyIndex(|cands|, ParseInt(Prompt(s.input).line).value).value]
    ensures c.Chosen? ==> c.entry in cands
    ensures c.NoChoice? ==>
              c.error == if Prompt(s.input).Eof? then NoMoreInput
                         else if ParseInt(Prompt(s.input).line).None? then NotANumber
                         else ChoiceOutOfRange
    ensures c.state.current == s.current
    ensures c.state.input == if Prompt(s.input).Eof? then s.input else Prompt(s.input).rest
    ensures c.state.trace == s.trace + [Shown(cands)]
  {
    var shown := s.trace + [Shown(cands)];
    match Prompt(s.input)
    case Eof => NoChoice(State(s.current, s.input, shown), NoMoreInput)
    case Answer(line, rest) =>
      var after := State(s.current, rest, shown);
      match ParseInt(line)
      case None => NoChoice(after, NotANumber)
      case Some(choice) =>
        match PyIndex(|cands|, choice)
        case None => NoChoice(after, ChoiceOutOfRange)
        case Some(k) => Chosen(cands[k], after)
  }

  /** `t` is the state after the entry `e`, picked for the command `group`,
      ran from `s`: an App is launched (for a one-word command only); any
      other entry runs on the words typed at the prompt for a one-word
      command, and on the command's other words otherwise. */
  predicate CommandRan(run: Runner, e: Entry, group: seq<string>, s: State, t: State)
    requires group != []
  {
    if e.App? then |group| == 1 && t == Launch(e.app, s)
    else if |group| == 1 then
      Prompt(s.input).Answer?
      && t == RunEntry(run, e, TypedArgs(Prompt(s.input).line), State(s.current, Prompt(s.input).rest, s.trace))
    else t == RunEntry(run, e, Strs(group[1..]), s)
  }

  /** `t` is the state after a first stage with candidates `cands` ran from
      `s`: a single candidate is used at once; among several, the one the
      typed number picks. */
  predicate FirstStageRan(cands: seq<Entry>, run: Runner, group: seq<string>, s: State, t: State)
    requires group != []
  {
    (|cands| == 1 && CommandRan(run, cands[0], group, s, t))
    || (|cands| > 1 && Choose(cands, s).Chosen?
        && CommandRan(run, Choose(cands, s).entry, group, Choose(cands, s).state, t))
  }

  /** The first stage (`idx == 0`): without a command, the `TypeError` of
      `query_action_app()`; otherwise its candidates decide. Applications
      are candidates only for a one-word command, so no App ever receives
      arguments. */
  function FirstStage(cat: Catalog, run: Runner, group: seq<string>, s: State): (r: StageResult)
    ensures group == [] ==> r == Stop(s, MissingCommand)
    ensures r.Stop? && r.error == NotFound <==> group != [] && QueryActionApp(cat, group[0], group[1..]) == []
    ensures r.Stop? && r.error == NotFound ==> r.state == s
    ensures r.Stop? ==> r.error != WrongArity
    ensures r.Next? ==> group != [] && FirstStageRan(QueryActionApp(cat, group[0], group[1..]), run, group, s, r.state)
    ensures group != [] ==>
              var cands := QueryActionApp(cat, group[0], group[1..]);
              (|cands| == 1 ==> r == RunCommand(run, cands[0], group, s))
              && (|cands| > 1 && Choose(cands, s).NoChoice? ==> r == Stop(Choose(cands, s).state, Choose(cands, s).error))
              && (|cands| > 1 && Choose(cands, s).Chosen? ==>
                    r == RunCommand(run, Choose(cands, s).entry, group, Choose(cands, s).state))
    ensures Grows(s.trace, r.state.trace)
  {
    if group == [] then Stop(s, MissingCommand)
    else
      var cands := QueryActionApp(cat, group[0], group[1..]);
      assert forall e :: e in cands && e.App? ==> |group| == 1;
      FirstStageOn(cands, run, group, s)
  }

  /** The first stage's branches on its candidates `cands`: none is
      `NotFoundErr`, a single one is used at once, several are shown and
      one is picked. */
  function FirstStageOn(cands: seq<Entry>, run: Runner, group: seq<string>, s: State): (r: StageResult)
    requires group != []
    ensures r.Stop? && r.error == NotFound <==> cands == []
    ensures cands == [] ==> r == Stop(s, NotFound)
    ensures (forall e :: e in cands && e.App? ==> |group| == 1) && r.Stop? ==> r.error != WrongArity
    ensures |cands| == 1 ==> r == RunCommand(run, cands[0], group, s)
    ensures |cands| > 1 && Choose(cands, s).NoChoice? ==> r == Stop(Choose(cands, s).state, Choose(cands, s).error)
    ensures |cands| > 1 && Choose(cands, s).Chosen? ==>
              r == RunCommand(run, Choose(cands, s).entry, group, Choose(cands, s).state)
    ensures r.Next? ==> FirstStageRan(cands, run, group, s, r.state)
    ensures Grows(s.trace, r.state.trace)
  {
    if cands == [] then Stop(s, NotFound)
    else if |cands| == 1 then RunCommand(run, cands[0], group, s)
    else
      match Choose(cands, s)
      case NoChoice(t, e) => Stop(t, e)
      case Chosen(c, t) => RunCommand(run, c, group, t)
  }

  /** The entry picked for the command `group`: a one-word command
      launches it or asks for its arguments; otherwise it runs with the
      command's other words. */
  function RunCommand(run: Runner, e: Entry, group: seq<string>, s: State): (r: StageResult)
    requires group != []
    ensures r.Stop? <==> (e.App? && |group| > 1) || (!e.App? && |group| == 1 && Prompt(s.input).Eof?)
    ensures r.Stop? ==> r.error == NoMoreInput || (r.error == WrongArity && e.App? && |group| > 1)
    ensures r.Next? ==> CommandRan(run, e, group, s, r.state)
    ensures Grows(s.trace, r.state.trace)
  {
    if |group| == 1 then LaunchOrAsk(run, e, s) else Invoke(run, e, Strs(group[1..]), s)
  }

  /** A later stage: skipped while `current` is falsy; otherwise the pipe
      named by the stage's first word runs on `current` (its other words
      are ignored). */
  function LaterStage(cat: Catalog, run: Runner, group: seq<string>, s: State): (r: StageResult)
    ensures !Truthy(s.current) ==> r == Next(s)
    ensures Truthy(s.current) && group == [] ==> r == Stop(s, EmptyStage)
    ensures r.Stop? ==> r.error != NotFound && r.error != WrongArity
    ensures Truthy(s.current) && r.Next? ==>
              group != [] && RanLast(s.trace, r.state, QueryPipe(cat, group[0]), [s.current], run)
              && RanPipe(s.trace, r.state, cat, [s.current], run)
    ensures Truthy(s.current) && group != [] ==>
              var cands := QueryPipe(cat, group[0]);
              (|cands| == 1 ==> r == Next(RunEntry(run, cands[0], [s.current], s)))
              && (|cands| != 1 && Choose(cands, s).NoChoice? ==> r == Stop(Choose(cands, s).state, Choose(cands, s).error))
              && (|cands| != 1 && Choose(cands, s).Chosen? ==>
                    r == Next(RunEntry(run, Choose(cands, s).entry, [s.current], Choose(cands, s).state)))
    ensures Grows(s.trace, r.state.trace)
  {
    if !Truthy(s.current) then Next(s)
    else if group == [] then Stop(s, EmptyStage)
    else
      var r := PipeStageOn(QueryPipe(cat, group[0]), run, s);
      assert r.Next? ==> r.state.trace[|r.state.trace| - 1].entry in QueryPipe(cat, group[0]);
      r
  }

  /** A pipe stage's branches on its candidates `cands`: a single one runs
      at once, otherwise (none included) they are shown and the one the
      typed number picks runs; a completed stage has run one of them on
      `current`. */
  function PipeStageOn(cands: seq<Entry>, run: Runner, s: State): (r: StageResult)
    ensures r.Stop? ==> r.error != NotFound
    ensures (forall e :: e in cands ==> !e.App?) && r.Stop? ==> r.error != WrongArity
    ensures |cands| == 1 && !cands[0].App? ==> r == Next(RunEntry(run, cands[0], [s.current], s))
    ensures |cands| != 1 && Choose(cands, s).NoChoice? ==> r == Stop(Choose(cands, s).state, Choose(cands, s).error)
    ensures |cands| != 1 && Choose(cands, s).Chosen? && !Choose(cands, s).entry.App? ==>
              r == Next(RunEntry(run, Choose(cands, s).entry, [s.current], Choose(cands, s).state))
    ensures |cands| != 1 && r.Next? ==>
              Choose(cands, s).Chosen?
              && r.state == RunEntry(run, Choose(cands, s).entry, [s.current], Choose(cands, s).state)
    ensures r.Next? ==> RanLast(s.trace, r.state, cands, [s.current], run)
    ensures Grows(s.trace, r.state.trace)
  {
    if |cands| == 1 then Invoke(run, cands[0], [s.current], s)
    else
      match Choose(cands, s)
      case NoChoice(t, e) => Stop(t, e)
      case Chosen(c, t) => Invoke(run, c, [s.current], t)
  }

  /** The stages from the `i`-th on, all of them pipe stages. */
  function Pipeline(cat: Catalog, run: Runner, groups: seq<seq<string>>, i: nat, s: State): (o: Outcome)
    requires 1 <= i <= |groups|
    ensures Grows(s.trace, o.trace)
    ensures o.error != Some(NotFound) && o.error != Some(WrongArity)
    decreases |groups| - i
  {
    if i == |groups| then Outcome(s.trace, s.current, None)
    else match LaterStage(cat, run, groups[i], s)
      case Stop(t, e) => Outcome(t.trace, t.current, Some(e))
      case Next(t) =>
        var o := Pipeline(cat, run, groups, i + 1, t);
        GrowsTrans(s.trace, t.trace, o.trace);
        o
  }

  lemma PipelineEnd(cat: Catalog, run: Runner, groups: seq<seq<string>>, s: State)
    requires groups != []
    ensures Pipeline(cat, run, groups, |groups|, s) == Outcome(s.trace, s.current, None)
  {
  }

  lemma PipelineUnfold(cat: Catalog, run: Runner, groups: seq<seq<string>>, i: nat, s: State, r: StageResult)
    requires 1 <= i < |groups| && r == LaterStage(cat, run, groups[i], s)
    ensures r.Stop? ==> Pipeline(cat, run, groups, i, s) == Outcome(r.state.trace, r.state.current, Some(r.error))
    ensures r.Next? ==> Pipeline(cat, run, groups, i, s) == Pipeline(cat, run, groups, i + 1, r.state)
  {
  }

  /** `do(args)` with `current = None` and nothing read yet: the first
      stage, then the pipe stages. */
  function DoSpec(cat: Catalog, run: Runner, args: seq<string>, input: seq<string>): Outcome
  {
    var groups := PipeGroups(args);
    var s := State(NoneValue, input, []);
    if groups == [] then Outcome([], NoneValue, None)
    else match FirstStage(cat, run, groups[0], s)
      case Stop(t, e) => Outcome(t.trace, t.current, Some(e))
      case Next(t) => Pipeline(cat, run, groups, 1, t)
  }

  lemma DoSpecUnfold(cat: Catalog, run: Runner, args: seq<string>, input: seq<string>, r: StageResult)
    requires PipeGroups(args) != []
    requires r == FirstStage(cat, run, PipeGroups(args)[0], State(NoneValue, input, []))
    ensures r.Stop? ==> DoSpec(cat, run, args, input) == Outcome(r.state.trace, r.state.current, Some(r.error))
    ensures r.Next? ==> DoSpec(cat, run, args, input) == Pipeline(cat, run, PipeGroups(args), 1, r.state)
  {
  }

  /** `do`: the loop over `enumerate(do_break_pipes(args))`. */
  method Do(cat: Catalog, run: Runner, args: seq<string>, input: seq<string>) returns (outcome: Outcome)
    ensures outcome == DoSpec(cat, run, args, input)
  {
    var groups := BreakPipes(args);
    var state := State(NoneValue, input, []);
    if groups == [] {
      return Outcome([], NoneValue, None);
    }
    var first := FirstStage(cat, run, groups[0], state);
    DoSpecUnfold(cat, run, args, input, first);
    if first.Stop? {
      return Outcome(first.state.trace, first.state.current, Some(first.error));
    }
    state := first.state;
    var i := 1;
    while i < |groups|
      invariant 1 <= i <= |groups|
      invariant Pipeline(cat, run, groups, i, state) == DoSpec(cat, run, args, input)
    {
      var r := LaterStage(cat, run, groups[i], state);
      PipelineUnfold(cat, run, groups, i, state, r);
      if r.Stop? {
        return Outcome(r.state.trace, r.state.current, Some(r.error));
      }
      state := r.state;
      i := i + 1;
    }
    PipelineEnd(cat, run, groups, state);
    return Outcome(state.trace, state.current, None);
  }

  /** Once `current` is falsy after the first stage, every later stage is
      skipped: nothing more runs, is shown or is read. */
  lemma {:induction false} FalsySkipsRest(cat: Catalog, run: Runner, groups: seq<seq<string>>, i: nat, s: State)
    requires 1 <= i <= |groups| && !Truthy(s.current)
    ensures Pipeline(cat, run, groups, i, s) == Outcome(s.trace, s.current, None)
    decreases |groups| - i
  {
    if i < |groups| {
      PipelineUnfold(cat, run, groups, i, s, Next(s));
      FalsySkipsRest(cat, run, groups, i + 1, s);
    } else {
      PipelineEnd(cat, run, groups, s);
    }
  }

  /** A one-word command whose only candidate is an application launches
      it and ends there: `current` stays `None`, so every pipe stage is
      skipped. */
  lemma SingleAppLaunchesAndStops(cat: Catalog, run: Runner, args: seq<string>, input: seq<string>, a: AppRow)
    requires PipeGroups(args) != [] && |PipeGroups(args)[0]| == 1
    requires QueryActionApp(cat, PipeGroups(args)[0][0], []) == [App(a)]
    ensures DoSpec(cat, run, args, input) == Outcome([Launched(a)], NoneValue, None)
  {
    var groups := PipeGroups(args);
    var s0 := State(NoneValue, input, []);
    var s1 := State(NoneValue, input, [Launched(a)]);
    assert groups[0][1..] == [];
    assert FirstStageOn([App(a)], run, groups[0], s0) == Next(s1);
    DoSpecUnfold(cat, run, args, input, Next(s1));
    FalsySkipsRest(cat, run, groups, 1, s1);
  }

  /** `NotFoundErr` is raised exactly when the first stage names a command
      with no candidate, and then before anything is shown, read or run. */
  lemma NotFoundIff(cat: Catalog, run: Runner, args: seq<string>, input: seq<string>)
    ensures var groups := PipeGroups(args);
            DoSpec(cat, run, args, input).error == Some(NotFound) <==>
              groups != [] && groups[0] != [] && QueryActionApp(cat, groups[0][0], groups[0][1..]) == []
    ensures DoSpec(cat, run, args, input).error == Some(NotFound) ==>
              DoSpec(cat, run, args, input).trace == [] && DoSpec(cat, run, args, input).current == NoneValue
  {
    var groups := PipeGroups(args);
    if groups != [] {
      var r := FirstStage(cat, run, groups[0], State(NoneValue, input, []));
      DoSpecUnfold(cat, run, args, input, r);
    }
  }

  /** A single non-App candidate for a command with words runs at once
      with the words as arguments; nothing is shown or read. */
  lemma FirstStageOnSingle(e: Entry, run: Runner, group: seq<string>, s: State)
    requires |group| > 1 && !e.App?
    ensures FirstStageOn([e], run, group, s)
            == Next(State(run(e, Strs(group[1..])), s.input, s.trace + [Ran(e, Strs(group[1..]))]))
  {
  }

  /** A command followed by words, with a single candidate, runs that
      candidate (an Action: applications are not considered when words
      follow) with the words as its arguments, before anything else. */
  lemma SingleCandidateRunsWithWords(cat: Catalog, run: Runner, args: seq<string>, input: seq<string>, e: Entry)
    requires PipeGroups(args) != [] && |PipeGroups(args)[0]| > 1
    requires QueryActionApp(cat, PipeGroups(args)[0][0], PipeGroups(args)[0][1..]) == [e]
    ensures e.Action?
    ensures var trace := DoSpec(cat, run, args, input).trace;
            trace != [] && trace[0] == Ran(e, Strs(PipeGroups(args)[0][1..]))
  {
    var groups := PipeGroups(args);
    var g := groups[0];
    assert e in QueryActionApp(cat, g[0], g[1..]);
    var s := State(NoneValue, input, []);
    var s1 := State(run(e, Strs(g[1..])), input, [Ran(e, Strs(g[1..]))]);
    FirstStageOnSingle(e, run, g, s);
    DoSpecUnfold(cat, run, args, input, Next(s1));
    var t := Pipeline(cat, run, groups, 1, s1).trace;
    assert t[0] == t[..1][0];
  }

  /** A command with words and several candidates: the number typed picks
      `candidates[choice]` (from the end when negative), which runs on the
      command's other words after the list was shown. */
  lemma PickedCandidateRuns(cat: Catalog, run: Runner, group: seq<string>, input: seq<string>)
    requires |group| > 1
    requires var cands := QueryActionApp(cat, group[0], group[1..]);
             |cands| > 1 && Choose(cands, State(NoneValue, input, [])).Chosen?
    ensures var cands := QueryActionApp(cat, group[0], group[1..]);
            var k := PyIndex(|cands|, ParseInt(Prompt(input).line).value).value;
            FirstStage(cat, run, group, State(NoneValue, input, []))
              == Next(RunEntry(run, cands[k], Strs(group[1..]), State(NoneValue, Prompt(input).rest, [Shown(cands)])))
  {
    var cands := QueryActionApp(cat, group[0], group[1..]);
    var s := State(NoneValue, input, []);
    var c := Choose(cands, s);
    PickedIsAction(cat, group, c.entry);
    FirstChoiceState(cands, input);
    RunCommandWithWords(run, c.entry, group, c.state);
  }

  /** A candidate of a command with words is an Action. */
  lemma PickedIsAction(cat: Catalog, group: seq<string>, e: Entry)
    requires |group| > 1 && e in QueryActionApp(cat, group[0], group[1..])
    ensures e.Action?
  {
    assert group[1..] != [];
  }

  /** A pick from the start of `do`: the list is the whole trace. */
  lemma FirstChoiceState(cands: seq<Entry>, input: seq<string>)
    requires Choose(cands, State(NoneValue, input, [])).Chosen?
    ensures Choose(cands, State(NoneValue, input, [])).state == State(NoneValue, Prompt(input).rest, [Shown(cands)])
  {
  }

  /** An Action picked for a command with words runs on them. */
  lemma RunCommandWithWords(run: Runner, e: Entry, group: seq<string>, s: State)
    requires |group| > 1 && e.Action?
    ensures RunCommand(run, e, group, s) == Next(RunEntry(run, e, Strs(group[1..]), s))
  {
  }

  /** `do A w...` with several candidates and one stage: `do` shows the
      list, runs the picked candidate on the words, and ends with its
      result. */
  lemma PickedCandidateDo(cat: Catalog, run: Runner, args: seq<string>, input: seq<string>)
    requires |PipeGroups(args)| == 1 && |PipeGroups(args)[0]| > 1
    requires var g := PipeGroups(args)[0];
             var cands := QueryActionApp(cat, g[0], g[1..]);
             |cands| > 1 && Choose(cands, State(NoneValue, input, [])).Chosen?
    ensures var g := PipeGroups(args)[0];
            var cands := QueryActionApp(cat, g[0], g[1..]);
            var e := cands[PyIndex(|cands|, ParseInt(Prompt(input).line).value).value];
            DoSpec(cat, run, args, input) == Outcome([Shown(cands), Ran(e, Strs(g[1..]))], run(e, Strs(g[1..])), None)
  {
    var groups := PipeGroups(args);
    PickedCandidateRuns(cat, run, groups[0], input);
    var r := FirstStage(cat, run, groups[0], State(NoneValue, input, []));
    DoSpecUnfold(cat, run, args, input, r);
    PipelineEnd(cat, run, groups, r.state);
  }

  /** Two stages that both complete: `do` ends in the state the second
      one leaves. */
  lemma TwoStageDo(cat: Catalog, run: Runner, args: seq<string>, input: seq<string>, s1: State, s2: State)
    requires |PipeGroups(args)| == 2
    requires FirstStage(cat, run, PipeGroups(args)[0], State(NoneValue, input, [])) == Next(s1)
    requires LaterStage(cat, run, PipeGroups(args)[1], s1) == Next(s2)
    ensures DoSpec(cat, run, args, input) == Outcome(s2.trace, s2.current, None)
  {
    DoSpecUnfold(cat, run, args, input, Next(s1));
    LastStage(cat, run, PipeGroups(args), s1, s2);
  }

  /** Running `e` from the start and then `q` on its result leaves both
      runs in the trace and `q`'s result as `current`. */
  lemma RunThenRun(run: Runner, e: Entry, args: seq<Value>, q: Entry, rest: seq<string>)
    ensures var s1 := RunEntry(run, e, args, State(NoneValue, rest, []));
            RunEntry(run, q, [s1.current], s1)
              == State(run(q, [run(e, args)]), rest, [Ran(e, args), Ran(q, [run(e, args)])])
  {
    assert [] + [Ran(e, args)] == [Ran(e, args)];
    assert [Ran(e, args)] + [Ran(q, [run(e, args)])] == [Ran(e, args), Ran(q, [run(e, args)])];
  }

  /** A pipe stage whose only candidate is `q` runs `q` on a truthy
      `current`, without any prompt. */
  lemma SinglePipeStage(cat: Catalog, run: Runner, group: seq<string>, s: State, q: Entry)
    requires |group| == 1 && Truthy(s.current) && QueryPipe(cat, group[0]) == [q]
    ensures LaterStage(cat, run, group, s) == Next(RunEntry(run, q, [s.current], s))
  {
    assert q in QueryPipe(cat, group[0]);
  }

  /** When the second of two stages completes, the pipeline ends there. */
  lemma LastStage(cat: Catalog, run: Runner, groups: seq<seq<string>>, s: State, t: State)
    requires |groups| == 2 && LaterStage(cat, run, groups[1], s) == Next(t)
    ensures Pipeline(cat, run, groups, 1, s) == Outcome(t.trace, t.current, None)
  {
    PipelineUnfold(cat, run, groups, 1, s, Next(t));
    PipelineEnd(cat, run, groups, t);
  }

  /** A one-word command whose only candidate is an Action asks for its
      arguments and runs on them. */
  lemma SingleActionAsks(cat: Catalog, run: Runner, group: seq<string>, input: seq<string>, e: Entry)
    requires |group| == 1 && QueryActionApp(cat, group[0], []) == [e] && !e.App? && Prompt(input).Answer?
    ensures FirstStage(cat, run, group, State(NoneValue, input, []))
            == Next(RunEntry(run, e, TypedArgs(Prompt(input).line), State(NoneValue, Prompt(input).rest, [])))
  {
    assert group[1..] == [];
  }

  /** `A | P` (for instance the words `a | p`, by `CommandAloneThenPipe`),
      where `A` is a one-word command whose only candidate is an Action and
      `P` names a single pipe: the Action asks for its arguments and runs on
      them; when its result is truthy, the pipe runs on that result, and
      what the pipe returns is where `do` ends. */
  lemma ActionThenPipe(cat: Catalog, run: Runner, args: seq<string>, input: seq<string>, e: Entry, q: Entry)
    requires |PipeGroups(args)| == 2 && |PipeGroups(args)[0]| == 1 && |PipeGroups(args)[1]| == 1
    requires QueryActionApp(cat, PipeGroups(args)[0][0], []) == [e] && !e.App?
    requires Prompt(input).Answer? && Truthy(run(e, TypedArgs(Prompt(input).line)))
    requires QueryPipe(cat, PipeGroups(args)[1][0]) == [q]
    ensures var typed := TypedArgs(Prompt(input).line);
            var v := run(e, typed);
            DoSpec(cat, run, args, input) == Outcome([Ran(e, typed), Ran(q, [v])], run(q, [v]), None)
  {
    var groups := PipeGroups(args);
    SingleActionAsks(cat, run, groups[0], input, e);
    var typed := TypedArgs(Prompt(input).line);
    var s1 := RunEntry(run, e, typed, State(NoneValue, Prompt(input).rest, []));
    SinglePipeStage(cat, run, groups[1], s1, q);
    var s2 := RunEntry(run, q, [s1.current], s1);
    RunThenRun(run, e, typed, q, Prompt(input).rest);
    TwoStageDo(cat, run, args, input, s1, s2);
  }

  /** A command with one word after it whose only candidate is `e` runs
      `e` on that word, without any prompt. */
  lemma SingleCandidateRunsOnWord(cat: Catalog, run: Runner, group: seq<string>, input: seq<string>, e: Entry)
    requires |group| == 2 && QueryActionApp(cat, group[0], [group[1]]) == [e]
    ensures FirstStage(cat, run, group, State(NoneValue, input, []))
            == Next(RunEntry(run, e, [Str(group[1])], State(NoneValue, input, [])))
  {
    assert e in QueryActionApp(cat, group[0], [group[1]]);
    assert group[1..] == [group[1]];
    assert Strs([group[1]]) == [Str(group[1])];
    FirstStageOnSingle(e, run, group, State(NoneValue, input, []));
  }

  /** `A w | P`, where the command `A w` has a single candidate and `P`
      names a single pipe: the candidate runs on `w` without any prompt;
      when its result is truthy, the pipe runs on that result, and what the
      pipe returns is where `do` ends. */
  lemma CommandWordThenPipe(cat: Catalog, run: Runner, args: seq<string>, input: seq<string>, e: Entry, q: Entry)
    requires |PipeGroups(args)| == 2 && |PipeGroups(args)[0]| == 2 && |PipeGroups(args)[1]| == 1
    requires QueryActionApp(cat, PipeGroups(args)[0][0], [PipeGroups(args)[0][1]]) == [e]
    requires Truthy(run(e, [Str(PipeGroups(args)[0][1])]))
    requires QueryPipe(cat, PipeGroups(args)[1][0]) == [q]
    ensures var word := [Str(PipeGroups(args)[0][1])];
            var v := run(e, word);
            DoSpec(cat, run, args, input) == Outcome([Ran(e, word), Ran(q, [v])], run(q, [v]), None)
  {
    var groups := PipeGroups(args);
    var word := [Str(groups[0][1])];
    SingleCandidateRunsOnWord(cat, run, groups[0], input, e);
    var s1 := RunEntry(run, e, word, State(NoneValue, input, []));
    SinglePipeStage(cat, run, groups[1], s1, q);
    var s2 := RunEntry(run, q, [s1.current], s1);
    RunThenRun(run, e, word, q, input);
    TwoStageDo(cat, run, args, input, s1, s2);
  }

  /** The words `a | p` themselves, with `a` an Action alone and `p` a
      single pipe. */
  lemma ActionBarPipe(cat: Catalog, run: Runner, a: string, p: string, input: seq<string>, e: Entry, q: Entry)
    requires a != Bar && p != Bar
    requires QueryActionApp(cat, a, []) == [e] && !e.App?
    requires Prompt(input).Answer? && Truthy(run(e, TypedArgs(Prompt(input).line)))
    requires QueryPipe(cat, p) == [q]
    ensures var typed := TypedArgs(Prompt(input).line);
            var v := run(e, typed);
            DoSpec(cat, run, [a, Bar, p], input) == Outcome([Ran(e, typed), Ran(q, [v])], run(q, [v]), None)
  {
    CommandAloneThenPipe(a, p);
    ActionThenPipe(cat, run, [a, Bar, p], input, e, q);
  }

  /** The words `a w | p` themselves, with `a w` having the single
      candidate `e` and `p` a single pipe. */
  lemma CommandWordBarPipe(cat: Catalog, run: Runner, a: string, w: string, p: string, input: seq<string>, e: Entry, q: Entry)
    requires a != Bar && w != Bar && p != Bar
    requires QueryActionApp(cat, a, [w]) == [e] && Truthy(run(e, [Str(w)]))
    requires QueryPipe(cat, p) == [q]
    ensures var v := run(e, [Str(w)]);
            DoSpec(cat, run, [a, w, Bar, p], input) == Outcome([Ran(e, [Str(w)]), Ran(q, [v])], run(q, [v]), None)
  {
    CommandThenPipe(a, w, p);
    CommandWordThenPipe(cat, run, [a, w, Bar, p], input, e, q);
  }

  /** The `TypeError` of `App.run` with arguments cannot happen in `do`. */
  lemma NeverWrongArity(cat: Catalog, run: Runner, args: seq<string>, input: seq<string>)
    ensures DoSpec(cat, run, args, input).error != Some(WrongArity)
  {
    var groups := PipeGroups(args);
    if groups != [] {
      var r := FirstStage(cat, run, groups[0], State(NoneValue, input, []));
      DoSpecUnfold(cat, run, args, input, r);
    }
  }

  /** Arguments that start with `|` have no command: `do` stops at once. */
  lemma LeadingBarMissingCommand(cat: Catalog, run: Runner, args: seq<string>, input: seq<string>)
    requires args != [] && args[0] == Bar
    ensures DoSpec(cat, run, args, input) == Outcome([], NoneValue, Some(MissingCommand))
  {
    assert PipeGroups(args)[0] == [];
    DoSpecUnfold(cat, run, args, input, Stop(State(NoneValue, input, []), MissingCommand));
  }
}
