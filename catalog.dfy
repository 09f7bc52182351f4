/** The catalog: the three tables of the index database, each a sequence of
    rows in table (insertion) order. */
module Catalog {

  /** A row of the `application` table (an installed desktop entry). */
  datatype AppRow = AppRow(name: string, description: string, location: string)

  /** A row of the `action` or `pipe` table: an external plugin file
      (`isBuiltin` false, `location` its path) or a module shipped in the
      package's plugin namespace (`isBuiltin` true, `location` its module
      name). */
  datatype PluginRow = PluginRow(name: string, description: string, location: string, isBuiltin: bool)

  /** A query result: the `App`, `Action` and `Pipe` objects the row
      factories build from the rows. */
  datatype Entry = App(app: AppRow) | Action(action: PluginRow) | Pipe(pipe: PluginRow)
  {
    function Name(): string
    {
      match this
      case App(a) => a.name
      case Action(p) => p.name
      case Pipe(p) => p.name
    }
  }

  datatype Catalog = Catalog(applications: seq<AppRow>, actions: seq<PluginRow>, pipes: seq<PluginRow>)

  /** The three tables right after they are created. */
  const EmptyCatalog := Catalog([], [], [])
}
