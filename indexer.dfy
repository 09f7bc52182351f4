/** Building the catalog (`index_populate_application`,
    `index_populate_action`, `index_populate_pipe`, `rebuild_index`). The
    directory listings, the module list of the plugin package, each plugin
    file's first line as `ast.literal_eval` reads it and each builtin's
    docstring are inputs; the three tables are the fields of an `Index`. */
module Indexer {
  import opened Wrappers
  import opened Text
  import opened Catalog
  import opened Metadata

  /** An entry of the user's plugin directory. `firstLineLiteral` is the
      string `ast.literal_eval` makes of the file's first line, `None` when
      it raises. */
  datatype PluginFile = PluginFile(name: string, path: string, firstLineLiteral: Option<string>)

  /** A module of the package's plugin namespace, by dotted name, with its
      docstring (`None` when it has none). */
  datatype PluginModule = PluginModule(qualifiedName: string, doc: Option<string>)

  /** An entry of one of the `applications` directories, with its lines. */
  datatype DesktopFile = DesktopFile(name: string, path: string, lines: seq<string>)

  /** The exceptions that escape the indexers and abort the rebuild:
      `literal_eval` failing on a plugin's first line, a builtin whose
      `None` docstring violates `description NOT NULL`, and the
      `StopIteration` of a desktop entry without a `name=` line. */
  datatype IndexError =
    | MalformedDescription(path: string)
    | MissingDocstring(moduleName: string)
    | MissingNameLine(path: string)

  /** The two plugin tables, which are filled the same way. */
  datatype PluginKind = ActionKind | PipeKind
  {
    function Prefix(): (p: string)
      ensures IsPrefix(p)
    {
      if this == ActionKind then ActionPrefix else PipePrefix
    }
  }

  /** What one directory entry contributes to a table. */
  datatype Step<R> = Skip | Add(row: R) | Fail(error: IndexError)

  /** The rows inserted so far and the exception that stopped the loop, if
      any. */
  datatype Populated<R> = Populated(rows: seq<R>, error: Option<IndexError>)

  /** An indexing loop, given what each entry contributes: rows are
      inserted in order, and the first failing entry stops the loop with
      the rows before it. */
  function Accumulate<R>(steps: seq<Step<R>>): Populated<R>
  {
    if steps == [] then Populated([], None)
    else Extend(Accumulate(steps[..|steps| - 1]), steps[|steps| - 1])
  }

  /** One more entry after `before`. */
  function Extend<R>(before: Populated<R>, step: Step<R>): Populated<R>
  {
    if before.error.Some? then before
    else match step
      case Skip => before
      case Add(row) => Populated(before.rows + [row], None)
      case Fail(e) => Populated(before.rows, Some(e))
  }

  /** A second loop run after `first`: it starts only if `first` did not
      raise. */
  function Then<R>(first: Populated<R>, second: Populated<R>): Populated<R>
  {
    if first.error.Some? then first
    else Populated(first.rows + second.rows, second.error)
  }

  /** The rows of every entry that contributes one, all entries taken. */
  function Added<R>(steps: seq<Step<R>>): seq<R>
  {
    if steps == [] then []
    else (if steps[0].Add? then [steps[0].row] else []) + Added(steps[1..])
  }

  lemma {:induction false} AddedAppend<R>(a: seq<Step<R>>, b: seq<Step<R>>)
    ensures Added(a + b) == Added(a) + Added(b)
    decreases |a|
  {
    if a != [] {
      AddedAppend(a[1..], b);
      assert (a + b)[1..] == a[1..] + b;
    } else {
      assert a + b == b;
    }
  }

  /** One more entry of the loop. */
  lemma AccumulateNext<R>(steps: seq<Step<R>>, i: nat)
    requires i < |steps| && Accumulate(steps[..i]).error.None?
    ensures steps[i].Skip? ==> Accumulate(steps[..i + 1]) == Accumulate(steps[..i])
    ensures steps[i].Add? ==> Accumulate(steps[..i + 1]) == Populated(Accumulate(steps[..i]).rows + [steps[i].row], None)
    ensures steps[i].Fail? ==> Accumulate(steps[..i + 1]) == Populated(Accumulate(steps[..i]).rows, Some(steps[i].error))
  {
    assert steps[..i + 1][..i] == steps[..i];
  }

  /** Once an entry failed, later entries change nothing. */
  lemma {:induction false} AccumulateSticks<R>(steps: seq<Step<R>>, i: nat)
    requires i <= |steps| && Accumulate(steps[..i]).error.Some?
    ensures Accumulate(steps) == Accumulate(steps[..i])
    decreases |steps|
  {
    if i < |steps| {
      var init := steps[..|steps| - 1];
      assert init[..i] == steps[..i];
      AccumulateSticks(init, i);
    } else {
      assert steps[..i] == steps;
    }
  }

  /** Two loops in a row behave as one loop over both runs of entries:
      the second starts only if the first did not raise. */
  lemma {:induction false} AccumulateAppend<R>(a: seq<Step<R>>, b: seq<Step<R>>)
    ensures Accumulate(a + b) == Then(Accumulate(a), Accumulate(b))
    decreases |b|
  {
    if b == [] {
      assert a + b == a;
    } else {
      var init := b[..|b| - 1];
      var last := b[|b| - 1];
      AccumulateAppend(a, init);
      assert (a + b)[..|a + b| - 1] == a + init;
      assert (a + b)[|a + b| - 1] == last;
      ThenExtend(Accumulate(a), Accumulate(init), last);
    }
  }

  lemma ThenExtend<R>(first: Populated<R>, second: Populated<R>, step: Step<R>)
    ensures Extend(Then(first, second), step) == Then(first, Extend(second, step))
  {
    if first.error.None? && second.error.None? && step.Add? {
      assert first.rows + second.rows + [step.row] == first.rows + (second.rows + [step.row]);
    }
  }

  /** The loop runs to the end exactly when no entry fails. */
  lemma {:induction false} AccumulateOk<R>(steps: seq<Step<R>>)
    ensures Accumulate(steps).error.None? <==> forall k :: 0 <= k < |steps| ==> !steps[k].Fail?
    decreases |steps|
  {
    if steps != [] {
      var init := steps[..|steps| - 1];
      AccumulateOk(init);
      assert forall k :: 0 <= k < |init| ==> init[k] == steps[k];
    }
  }

  /** A loop that runs to the end inserts the row of every contributing
      entry, in order. */
  lemma {:induction false} AccumulateRows<R>(steps: seq<Step<R>>)
    requires Accumulate(steps).error.None?
    ensures Accumulate(steps).rows == Added(steps)
    decreases |steps|
  {
    if steps != [] {
      var init := steps[..|steps| - 1];
      var last := steps[|steps| - 1];
      AccumulateRows(init);
      assert steps == init + [last];
      AddedAppend(init, [last]);
      assert [last][1..] == [];
    }
  }

  /** A loop that stops does so at the first failing entry, with the rows
      of the entries before it. */
  lemma {:induction false} AccumulateFirstFailure<R>(steps: seq<Step<R>>)
    requires Accumulate(steps).error.Some?
    ensures exists k :: 0 <= k < |steps| && steps[k] == Fail(Accumulate(steps).error.value)
              && Accumulate(steps[..k]).error.None?
              && Accumulate(steps).rows == Accumulate(steps[..k]).rows
    decreases |steps|
  {
    var n := |steps|;
    var init := steps[..n - 1];
    if Accumulate(init).error.Some? {
      AccumulateFirstFailure(init);
      var k :| 0 <= k < |init| && init[k] == Fail(Accumulate(init).error.value)
               && Accumulate(init[..k]).error.None?
               && Accumulate(init).rows == Accumulate(init[..k]).rows;
      assert init[..k] == steps[..k];
    } else {
      assert steps[..n - 1] == init;
    }
  }

  /** Every inserted row is the row of some entry. */
  lemma {:induction false} AccumulateRowsFrom<R>(steps: seq<Step<R>>)
    ensures forall r :: r in Accumulate(steps).rows ==> Add(r) in steps
    decreases |steps|
  {
    if steps != [] {
      var init := steps[..|steps| - 1];
      AccumulateRowsFrom(init);
      forall r | r in Accumulate(steps).rows
        ensures Add(r) in steps
      {
        if r in Accumulate(init).rows {
          assert Add(r) in init;
        } else {
          assert steps[|steps| - 1] == Add(r);
        }
      }
    }
  }

  /** One entry of `index_populate_application`: only desktop files count;
      the row is named and described from the file's lines and located at
      its path. */
  function DesktopStep(f: DesktopFile): Step<AppRow>
  {
    if !IsDesktopFile(f.name) then Skip
    else match ParseDesktopEntry(f.lines)
      case None => Fail(MissingNameLine(f.path))
      case Some(info) => Add(AppRow(info.name, info.description, f.path))
  }

  /** One user plugin file of `index_populate_action`/`index_populate_pipe`. */
  function ExternalStep(kind: PluginKind, f: PluginFile): Step<PluginRow>
  {
    if !IsPluginFile(f.name, kind.Prefix()) then Skip
    else match f.firstLineLiteral
      case None => Fail(MalformedDescription(f.path))
      case Some(d) => Add(PluginRow(PluginName(f.name, kind.Prefix()), d, f.path, false))
  }

  /** One module of the plugin package, located by its dotted name. */
  function BuiltinStep(kind: PluginKind, m: PluginModule): Step<PluginRow>
  {
    if !IsBuiltinPlugin(m.qualifiedName, kind.Prefix()) then Skip
    else match m.doc
      case None => Fail(MissingDocstring(m.qualifiedName))
      case Some(d) => Add(PluginRow(BuiltinPluginName(m.qualifiedName, kind.Prefix()), d, m.qualifiedName, true))
  }

  function DesktopSteps(files: seq<DesktopFile>): seq<Step<AppRow>>
  {
    seq(|files|, i requires 0 <= i < |files| => DesktopStep(files[i]))
  }

  function ExternalSteps(kind: PluginKind, files: seq<PluginFile>): seq<Step<PluginRow>>
  {
    seq(|files|, i requires 0 <= i < |files| => ExternalStep(kind, files[i]))
  }

  function BuiltinSteps(kind: PluginKind, modules: seq<PluginModule>): seq<Step<PluginRow>>
  {
    seq(|modules|, i requires 0 <= i < |modules| => BuiltinStep(kind, modules[i]))
  }

  /** What one plugin indexer inserts: the user's files, then the
      package's modules, as one run of entries. */
  function PluginRows(kind: PluginKind, files: seq<PluginFile>, modules: seq<PluginModule>): Populated<PluginRow>
  {
    Accumulate(ExternalSteps(kind, files) + BuiltinSteps(kind, modules))
  }

  /** `cat` with `rows` appended to the plugin table of `kind`. */
  function AppendRows(cat: Catalog, kind: PluginKind, rows: seq<PluginRow>): Catalog
  {
    if kind == ActionKind then cat.(actions := cat.actions + rows)
    else cat.(pipes := cat.pipes + rows)
  }

  lemma AppendRowsTwice(cat: Catalog, kind: PluginKind, first: seq<PluginRow>, second: seq<PluginRow>)
    ensures AppendRows(AppendRows(cat, kind, first), kind, second) == AppendRows(cat, kind, first + second)
  {
    assert cat.actions + first + second == cat.actions + (first + second);
    assert cat.pipes + first + second == cat.pipes + (first + second);
  }

  /** The index database: its three tables, in insertion order. */
  class Index {
    var applications: seq<AppRow>
    var actions: seq<PluginRow>
    var pipes: seq<PluginRow>

    /** `index_setup`: three empty tables. */
    constructor()
      ensures applications == [] && actions == [] && pipes == []
    {
      applications := [];
      actions := [];
      pipes := [];
    }

    function Snapshot(): Catalog
      reads this
    {
      Catalog(applications, actions, pipes)
    }

    /** The loop of `index_populate_application` over the entries of the
        `applications` directories, each already read as the row it
        inserts or the exception it raises. */
    method FillApplications(steps: seq<Step<AppRow>>) returns (error: Option<IndexError>)
      modifies this
      ensures applications == old(applications) + Accumulate(steps).rows
      ensures error == Accumulate(steps).error
      ensures actions == old(actions) && pipes == old(pipes)
    {
      var i := 0;
      while i < |steps|
        invariant 0 <= i <= |steps|
        invariant Accumulate(steps[..i]).error.None?
        invariant applications == old(applications) + Accumulate(steps[..i]).rows
        invariant actions == old(actions) && pipes == old(pipes)
      {
        AccumulateNext(steps, i);
        match steps[i] {
          case Skip =>
          case Fail(e) =>
            AccumulateSticks(steps, i + 1);
            return Some(e);
          case Add(row) =>
            applications := applications + [row];
        }
        i := i + 1;
      }
      assert steps[..i] == steps;
      return None;
    }

    /** The loops of `index_populate_action` (`kind == ActionKind`) and
        `index_populate_pipe` (`kind == PipeKind`): one row into the table
        of `kind` per contributing entry, until an entry raises. */
    method FillPlugins(kind: PluginKind, steps: seq<Step<PluginRow>>) returns (error: Option<IndexError>)
      modifies this
      ensures Snapshot() == AppendRows(old(Snapshot()), kind, Accumulate(steps).rows)
      ensures error == Accumulate(steps).error
    {
      var i := 0;
      while i < |steps|
        invariant 0 <= i <= |steps|
        invariant Accumulate(steps[..i]).error.None?
        invariant Snapshot() == AppendRows(old(Snapshot()), kind, Accumulate(steps[..i]).rows)
      {
        AccumulateNext(steps, i);
        match steps[i] {
          case Skip =>
          case Fail(e) =>
            AccumulateSticks(steps, i + 1);
            return Some(e);
          case Add(row) =>
            AppendRowsTwice(old(Snapshot()), kind, Accumulate(steps[..i]).rows, [row]);
            if kind == ActionKind {
              actions := actions + [row];
            } else {
              pipes := pipes + [row];
            }
        }
        i := i + 1;
      }
      assert steps[..i] == steps;
      return None;
    }

    /** `index_populate_application`: a row per desktop file, in directory
        order, until a file without a `name=` line raises. */
    method PopulateApplication(files: seq<DesktopFile>) returns (error: Option<IndexError>)
      modifies this
      ensures applications == old(applications) + Accumulate(DesktopSteps(files)).rows
      ensures error == Accumulate(DesktopSteps(files)).error
      ensures actions == old(actions) && pipes == old(pipes)
    {
      error := FillApplications(DesktopSteps(files));
    }

    /** `index_populate_action`/`index_populate_pipe`: the user's plugin
        files, then the package's modules, until one raises. */
    method PopulatePlugins(kind: PluginKind, files: seq<PluginFile>, modules: seq<PluginModule>)
      returns (error: Option<IndexError>)
      modifies this
      ensures Snapshot() == AppendRows(old(Snapshot()), kind, PluginRows(kind, files, modules).rows)
      ensures error == PluginRows(kind, files, modules).error
    {
      var external := ExternalSteps(kind, files);
      var builtin := BuiltinSteps(kind, modules);
      AccumulateAppend(external, builtin);
      error := FillPlugins(kind, external);
      if error.None? {
        AppendRowsTwice(old(Snapshot()), kind, Accumulate(external).rows, Accumulate(builtin).rows);
        error := FillPlugins(kind, builtin);
      }
    }
  }

  /** `index_populate_application` runs to the end exactly when every
      desktop file has a `name=` line. */
  lemma ApplicationsOk(desktop: seq<DesktopFile>)
    ensures Accumulate(DesktopSteps(desktop)).error.None? <==>
              forall f :: f in desktop && IsDesktopFile(f.name) ==> ParseDesktopEntry(f.lines).Some?
  {
    var steps := DesktopSteps(desktop);
    AccumulateOk(steps);
    if forall f :: f in desktop && IsDesktopFile(f.name) ==> ParseDesktopEntry(f.lines).Some? {
      forall k | 0 <= k < |steps| ensures !steps[k].Fail? {
        assert desktop[k] in desktop;
      }
    }
    if Accumulate(steps).error.None? {
      forall f | f in desktop && IsDesktopFile(f.name) ensures ParseDesktopEntry(f.lines).Some? {
        var k :| 0 <= k < |desktop| && desktop[k] == f;
        assert !steps[k].Fail?;
      }
    }
  }

  /** The user-file half of a plugin indexer raises nothing exactly when
      every selected file starts with a literal. */
  lemma ExternalOk(kind: PluginKind, files: seq<PluginFile>)
    ensures Accumulate(ExternalSteps(kind, files)).error.None? <==>
              forall f :: f in files && IsPluginFile(f.name, kind.Prefix()) ==> f.firstLineLiteral.Some?
  {
    var steps := ExternalSteps(kind, files);
    AccumulateOk(steps);
    if forall f :: f in files && IsPluginFile(f.name, kind.Prefix()) ==> f.firstLineLiteral.Some? {
      forall k | 0 <= k < |steps| ensures !steps[k].Fail? {
        assert files[k] in files;
      }
    } else {
      var f :| f in files && IsPluginFile(f.name, kind.Prefix()) && f.firstLineLiteral.None?;
      var k :| 0 <= k < |files| && files[k] == f;
      assert steps[k].Fail?;
    }
  }

  lemma BuiltinAllDocumented(kind: PluginKind, modules: seq<PluginModule>)
    requires forall m :: m in modules && IsBuiltinPlugin(m.qualifiedName, kind.Prefix()) ==> m.doc.Some?
    ensures Accumulate(BuiltinSteps(kind, modules)).error.None?
  {
    var steps := BuiltinSteps(kind, modules);
    AccumulateOk(steps);
    forall k | 0 <= k < |steps| ensures !steps[k].Fail? {
      assert modules[k] in modules;
      assert steps[k] == BuiltinStep(kind, modules[k]);
    }
  }

  lemma BuiltinUndocumented(kind: PluginKind, modules: seq<PluginModule>, k: nat)
    requires k < |modules| && IsBuiltinPlugin(modules[k].qualifiedName, kind.Prefix()) && modules[k].doc.None?
    ensures Accumulate(BuiltinSteps(kind, modules)).error.Some?
  {
    var steps := BuiltinSteps(kind, modules);
    AccumulateOk(steps);
    assert steps[k].Fail?;
  }

  /** The package half of a plugin indexer raises nothing exactly when
      every selected module has a docstring. */
  lemma BuiltinOk(kind: PluginKind, modules: seq<PluginModule>)
    ensures Accumulate(BuiltinSteps(kind, modules)).error.None? <==>
              forall m :: m in modules && IsBuiltinPlugin(m.qualifiedName, kind.Prefix()) ==> m.doc.Some?
  {
    if forall m :: m in modules && IsBuiltinPlugin(m.qualifiedName, kind.Prefix()) ==> m.doc.Some? {
      BuiltinAllDocumented(kind, modules);
    } else {
      var m :| m in modules && IsBuiltinPlugin(m.qualifiedName, kind.Prefix()) && m.doc.None?;
      var k :| 0 <= k < |modules| && modules[k] == m;
      BuiltinUndocumented(kind, modules, k);
    }
  }

  /** A plugin indexer runs to the end exactly when every selected plugin
      file's first line is a literal and every selected module has a
      docstring. */
  lemma PluginsOk(kind: PluginKind, files: seq<PluginFile>, modules: seq<PluginModule>)
    ensures PluginRows(kind, files, modules).error.None? <==>
              (forall f :: f in files && IsPluginFile(f.name, kind.Prefix()) ==> f.firstLineLiteral.Some?)
              && (forall m :: m in modules && IsBuiltinPlugin(m.qualifiedName, kind.Prefix()) ==> m.doc.Some?)
  {
    AccumulateAppend(ExternalSteps(kind, files), BuiltinSteps(kind, modules));
    ExternalOk(kind, files);
    BuiltinOk(kind, modules);
  }

  lemma DesktopStepAdd(f: DesktopFile, r: AppRow)
    requires DesktopStep(f) == Add(r)
    ensures IsDesktopFile(f.name) && r.location == f.path
    ensures ParseDesktopEntry(f.lines) == Some(DesktopInfo(r.name, r.description))
  {
  }

  lemma ExternalStepAdd(kind: PluginKind, f: PluginFile, r: PluginRow)
    requires ExternalStep(kind, f) == Add(r)
    ensures IsPluginFile(f.name, kind.Prefix()) && f.firstLineLiteral.Some?
    ensures r == PluginRow(PluginName(f.name, kind.Prefix()), f.firstLineLiteral.value, f.path, false)
    ensures '.' !in r.name && !Occurs(r.name, kind.Prefix())
  {
    PluginNameIsAfterLastPrefix(f.name, kind.Prefix());
  }

  lemma BuiltinStepAdd(kind: PluginKind, m: PluginModule, r: PluginRow)
    requires BuiltinStep(kind, m) == Add(r)
    ensures IsBuiltinPlugin(m.qualifiedName, kind.Prefix()) && m.doc.Some?
    ensures r == PluginRow(BuiltinPluginName(m.qualifiedName, kind.Prefix()), m.doc.value, m.qualifiedName, true)
    ensures '.' !in r.name && !Occurs(r.name, kind.Prefix())
  {
    BuiltinNameIsAfterLastPrefix(m.qualifiedName, kind.Prefix());
  }

  /** Every application row is a desktop file's: its name and description
      are what the file's `name=`/`comment=` lines give, its location the
      file's path. */
  lemma ApplicationRowsFrom(desktop: seq<DesktopFile>)
    ensures forall r :: r in Accumulate(DesktopSteps(desktop)).rows ==>
              exists f :: f in desktop && IsDesktopFile(f.name) && r.location == f.path
                && ParseDesktopEntry(f.lines) == Some(DesktopInfo(r.name, r.description))
  {
    var steps := DesktopSteps(desktop);
    AccumulateRowsFrom(steps);
    forall r: AppRow | r in Accumulate(steps).rows
      ensures exists f :: f in desktop && IsDesktopFile(f.name) && r.location == f.path
                && ParseDesktopEntry(f.lines) == Some(DesktopInfo(r.name, r.description))
    {
      var k :| 0 <= k < |steps| && steps[k] == Add(r);
      DesktopStepAdd(desktop[k], r);
      assert desktop[k] in desktop;
    }
  }

  lemma ExternalRowFrom(kind: PluginKind, files: seq<PluginFile>, r: PluginRow)
    requires Add(r) in ExternalSteps(kind, files)
    ensures '.' !in r.name && !Occurs(r.name, kind.Prefix()) && !r.isBuiltin
    ensures exists f :: f in files && IsPluginFile(f.name, kind.Prefix()) && f.firstLineLiteral.Some?
              && r == PluginRow(PluginName(f.name, kind.Prefix()), f.firstLineLiteral.value, f.path, false)
  {
    var steps := ExternalSteps(kind, files);
    var k :| 0 <= k < |steps| && steps[k] == Add(r);
    ExternalStepAdd(kind, files[k], r);
    assert files[k] in files;
  }

  lemma BuiltinRowFrom(kind: PluginKind, modules: seq<PluginModule>, r: PluginRow)
    requires Add(r) in BuiltinSteps(kind, modules)
    ensures '.' !in r.name && !Occurs(r.name, kind.Prefix()) && r.isBuiltin
    ensures exists m :: m in modules && IsBuiltinPlugin(m.qualifiedName, kind.Prefix()) && m.doc.Some?
              && r == PluginRow(BuiltinPluginName(m.qualifiedName, kind.Prefix()), m.doc.value, m.qualifiedName, true)
  {
    var steps := BuiltinSteps(kind, modules);
    var k :| 0 <= k < |steps| && steps[k] == Add(r);
    BuiltinStepAdd(kind, modules[k], r);
    assert modules[k] in modules;
  }

  /** Every row of a plugin table is a selected user file's (located at its
      path, described by its first line) or a selected module's (located
      by its dotted name, described by its docstring), and its name follows
      the last `action_`/`pipe_` and holds neither that prefix nor a `.`. */
  lemma PluginRowsFrom(kind: PluginKind, files: seq<PluginFile>, modules: seq<PluginModule>)
    ensures forall r :: r in PluginRows(kind, files, modules).rows ==>
              '.' !in r.name && !Occurs(r.name, kind.Prefix())
              && (!r.isBuiltin ==>
                    exists f :: f in files && IsPluginFile(f.name, kind.Prefix()) && f.firstLineLiteral.Some?
                      && r == PluginRow(PluginName(f.name, kind.Prefix()), f.firstLineLiteral.value, f.path, false))
              && (r.isBuiltin ==>
                    exists m :: m in modules && IsBuiltinPlugin(m.qualifiedName, kind.Prefix()) && m.doc.Some?
                      && r == PluginRow(BuiltinPluginName(m.qualifiedName, kind.Prefix()), m.doc.value, m.qualifiedName, true))
  {
    var external := ExternalSteps(kind, files);
    var builtin := BuiltinSteps(kind, modules);
    AccumulateRowsFrom(external + builtin);
    forall r | r in PluginRows(kind, files, modules).rows
      ensures '.' !in r.name && !Occurs(r.name, kind.Prefix())
      ensures !r.isBuiltin ==>
                exists f :: f in files && IsPluginFile(f.name, kind.Prefix()) && f.firstLineLiteral.Some?
                  && r == PluginRow(PluginName(f.name, kind.Prefix()), f.firstLineLiteral.value, f.path, false)
      ensures r.isBuiltin ==>
                exists m :: m in modules && IsBuiltinPlugin(m.qualifiedName, kind.Prefix()) && m.doc.Some?
                  && r == PluginRow(BuiltinPluginName(m.qualifiedName, kind.Prefix()), m.doc.value, m.qualifiedName, true)
    {
      assert Add(r) in external + builtin;
      if Add(r) in external {
        ExternalRowFrom(kind, files, r);
      } else {
        BuiltinRowFrom(kind, modules, r);
      }
    }
  }

  /** What a rebuild commits: the three tables when every indexer ran to the
      end, otherwise the error that escaped first. */
  function BuildCatalog(desktop: seq<DesktopFile>, files: seq<PluginFile>, modules: seq<PluginModule>)
    : Result<Catalog, IndexError>
  {
    var apps := Accumulate(DesktopSteps(desktop));
    var actions := PluginRows(ActionKind, files, modules);
    var pipes := PluginRows(PipeKind, files, modules);
    if apps.error.Some? then Err(apps.error.value)
    else if actions.error.Some? then Err(actions.error.value)
    else if pipes.error.Some? then Err(pipes.error.value)
    else Ok(Catalog(apps.rows, actions.rows, pipes.rows))
  }

  /** A rebuild commits exactly when every desktop file has a `name=` line,
      every `action_*.py`/`pipe_*.py` file starts with a literal and every
      `action_`/`pipe_` module of the package has a docstring. */
  lemma BuildCatalogOk(desktop: seq<DesktopFile>, files: seq<PluginFile>, modules: seq<PluginModule>)
    ensures BuildCatalog(desktop, files, modules).Ok? <==>
              (forall f :: f in desktop && IsDesktopFile(f.name) ==> ParseDesktopEntry(f.lines).Some?)
              && (forall f :: f in files && (IsPluginFile(f.name, ActionPrefix) || IsPluginFile(f.name, PipePrefix))
                    ==> f.firstLineLiteral.Some?)
              && (forall m :: m in modules && (IsBuiltinPlugin(m.qualifiedName, ActionPrefix) || IsBuiltinPlugin(m.qualifiedName, PipePrefix))
                    ==> m.doc.Some?)
  {
    ApplicationsOk(desktop);
    PluginsOk(ActionKind, files, modules);
    PluginsOk(PipeKind, files, modules);
  }

  lemma DesktopStepsPrefix(desktop: seq<DesktopFile>, k: nat)
    requires k <= |desktop|
    ensures DesktopSteps(desktop)[..k] == DesktopSteps(desktop[..k])
  {
  }

  lemma DesktopPrefixNamed(desktop: seq<DesktopFile>, k: nat)
    requires k <= |desktop| && Accumulate(DesktopSteps(desktop[..k])).error.None?
    ensures forall j :: 0 <= j < k && IsDesktopFile(desktop[j].name) ==> ParseDesktopEntry(desktop[j].lines).Some?
  {
    var steps := DesktopSteps(desktop[..k]);
    AccumulateOk(steps);
    forall j | 0 <= j < k && IsDesktopFile(desktop[j].name) ensures ParseDesktopEntry(desktop[j].lines).Some? {
      assert steps[j] == DesktopStep(desktop[j]);
    }
  }

  lemma DesktopStepFail(f: DesktopFile, e: IndexError)
    requires DesktopStep(f) == Fail(e)
    ensures IsDesktopFile(f.name) && ParseDesktopEntry(f.lines).None? && e == MissingNameLine(f.path)
  {
  }

  /** A failing `index_populate_application` stops at the first desktop file
      without a `name=` line, and the rows inserted are those of the files
      before it. */
  lemma ApplicationsFailAtFirst(desktop: seq<DesktopFile>)
    requires Accumulate(DesktopSteps(desktop)).error.Some?
    ensures exists k :: 0 <= k < |desktop| && IsDesktopFile(desktop[k].name)
              && ParseDesktopEntry(desktop[k].lines).None?
              && Accumulate(DesktopSteps(desktop)).error == Some(MissingNameLine(desktop[k].path))
              && (forall j :: 0 <= j < k && IsDesktopFile(desktop[j].name) ==> ParseDesktopEntry(desktop[j].lines).Some?)
              && Accumulate(DesktopSteps(desktop)).rows == Accumulate(DesktopSteps(desktop[..k])).rows
  {
    var steps := DesktopSteps(desktop);
    AccumulateFirstFailure(steps);
    var k :| 0 <= k < |steps| && steps[k] == Fail(Accumulate(steps).error.value)
             && Accumulate(steps[..k]).error.None?
             && Accumulate(steps).rows == Accumulate(steps[..k]).rows;
    DesktopStepsPrefix(desktop, k);
    DesktopStepFail(desktop[k], Accumulate(steps).error.value);
    DesktopPrefixNamed(desktop, k);
  }

  /** `rebuild_index`: create the tables, run the three indexers and commit.
      An exception leaves the inserts uncommitted, so the tables, which
      `CREATE TABLE` made outside the transaction, stay empty. */
  method RebuildIndex(desktop: seq<DesktopFile>, files: seq<PluginFile>, modules: seq<PluginModule>)
    returns (committed: Catalog, error: Option<IndexError>)
    ensures error.None? <==> BuildCatalog(desktop, files, modules).Ok?
    ensures error.None? ==> committed == BuildCatalog(desktop, files, modules).value
    ensures error.Some? ==> committed == EmptyCatalog && error.value == BuildCatalog(desktop, files, modules).error
  {
    var index := new Index();
    error := index.PopulateApplication(desktop);
    if error.Some? {
      return EmptyCatalog, error;
    }
    error := index.PopulatePlugins(ActionKind, files, modules);
    if error.Some? {
      return EmptyCatalog, error;
    }
    error := index.PopulatePlugins(PipeKind, files, modules);
    if error.Some? {
      return EmptyCatalog, error;
    }
    committed := index.Snapshot();
  }
}

