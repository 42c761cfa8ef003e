/**
  A database engine for the commands the converter emits. It refuses what the real engine refuses: adding a column
  that exists, altering or dropping a column that a live index or constraint is about, and storing a value in a column
  whose type cannot hold it. What a value or a statement decides there is a parameter, and so is the effect of every
  passed-through statement that `StatementEffect` does not read.
  */
module Database {
  import opened Wrappers
  import opened UnicodeConversion
  import opened StatementEffect

  datatype Value = Null | Data(text: string)

  datatype Column = Column(columnType: string, values: seq<Value>)

  /** `objects` are the live indexes and constraints, as the statements that created them, oldest first. */
  datatype Table = Table(rowCount: nat, columns: map<string, Column>, objects: seq<string>)

  type Db = map<string, Table>

  /** What is left open of a server. */
  datatype Engine = Engine(
    /** Whether a column of a type can hold a value. */
    holds: (string, Value) -> bool,
    /** Whether the index or constraint that a statement created is about a column. */
    uses: (string, string) -> bool,
    /** The value that a statement which adds a column gives to the rows there are. */
    initial: string -> Value,
    /** What any other statement that is passed through does, if it is not refused. */
    other: (string, Db) -> Option<Db>)

  predicate AllFit(engine: Engine, columnType: string, values: seq<Value>) {
    forall i :: 0 <= i < |values| ==> engine.holds(columnType, values[i])
  }

  /** No live index or constraint of the table is about the column. */
  predicate IsUnused(engine: Engine, t: Table, column: string) {
    forall k :: 0 <= k < |t.objects| ==> !engine.uses(t.objects[k], column)
  }

  function Filled(n: nat, value: Value): seq<Value> {
    seq(n, _ => value)
  }

  function AddOn(t: Table, column: string, columnType: string, value: Value): Option<Table> {
    if column !in t.columns
    then Some(t.(columns := t.columns[column := Column(columnType, Filled(t.rowCount, value))]))
    else None
  }

  function AlterOn(engine: Engine, t: Table, column: string, columnType: string): Option<Table> {
    if column in t.columns && IsUnused(engine, t, column) && AllFit(engine, columnType, t.columns[column].values)
    then Some(t.(columns := t.columns[column := t.columns[column].(columnType := columnType)]))
    else None
  }

  function DropOn(engine: Engine, t: Table, column: string): Option<Table> {
    if column in t.columns && IsUnused(engine, t, column) then Some(t.(columns := t.columns - {column})) else None
  }

  /** Executes one command on its table; none when the engine refuses it. */
  function ExecOn(engine: Engine, c: Command, t: Table): Option<Table> {
    match c
    case DropObjects(_) => Some(t.(objects := []))
    case AlterColumn(_, col, ty) => AlterOn(engine, t, col, ty)
    case AddText(_, col) => AddOn(t, col, "ntext", Null)
    case CopyColumn(_, target, source) =>
      if target in t.columns && source in t.columns
         && AllFit(engine, t.columns[target].columnType, t.columns[source].values)
      then Some(t.(columns := t.columns[target := t.columns[target].(values := t.columns[source].values)]))
      else None
    case DropColumn(_, col) => DropOn(engine, t, col)
    case RenameColumn(_, col, name) =>
      if col in t.columns && name !in t.columns
      then Some(t.(columns := (t.columns - {col})[name := t.columns[col]]))
      else None
    case Replay(text) => ReplayOn(engine, text, t)
  }

  /** Executes a statement that is passed through and is about this table alone. */
  function ReplayOn(engine: Engine, text: string, t: Table): Option<Table> {
    match EffectOf(text)
    case AddsObject(_) => Some(t.(objects := t.objects + [text]))
    case AddsColumn(_, col, ty) => AddOn(t, col, ty, engine.initial(text))
    case AltersColumn(_, col, ty) => AlterOn(engine, t, col, ty)
    case DropsColumn(_, col) => DropOn(engine, t, col)
    case Unread => None
  }

  /** The one table a command is about; none for a statement that may do anything. */
  function TableOf(c: Command): (table: Option<string>)
    ensures table.None? <==> c.Replay? && EffectOf(c.text).Unread?
  {
    match c
    case Replay(text) => (match EffectOf(text) case Unread => None case effect => Some(effect.table))
    case _ => Some(c.table)
  }

  function Exec(engine: Engine, c: Command, db: Db): Option<Db> {
    match TableOf(c)
    case None => engine.other(c.text, db)
    case Some(name) =>
      if name !in db then None
      else
        match ExecOn(engine, c, db[name])
        case None => None
        case Some(t) => Some(db[name := t])
  }

  /** Executes commands in order, stopping at the first one refused. */
  function ExecAll(engine: Engine, cs: seq<Command>, db: Db): Option<Db> {
    if cs == [] then Some(db)
    else
      match Exec(engine, cs[0], db)
      case None => None
      case Some(next) => ExecAll(engine, cs[1..], next)
  }

  lemma {:induction false} ExecAppend(engine: Engine, a: seq<Command>, b: seq<Command>, db: Db)
    ensures ExecAll(engine, a + b, db)
         == match ExecAll(engine, a, db)
            case None => None
            case Some(next) => ExecAll(engine, b, next)
  {
    if a == [] {
      assert a + b == b;
    } else {
      assert (a + b)[1..] == a[1..] + b;
      match Exec(engine, a[0], db)
      case None =>
      case Some(next) => ExecAppend(engine, a[1..], b, next);
    }
  }

  lemma ExecReplay(engine: Engine, text: string, db: Db)
    ensures ExecAll(engine, [Replay(text)], db) == Exec(engine, Replay(text), db)
  {
    assert [Replay(text)][1..] == [];
  }

  lemma ObjectExecutes(engine: Engine, text: string, table: string, db: Db)
    requires EffectOf(text) == AddsObject(table)
    ensures ExecAll(engine, [Replay(text)], db)
         == if table !in db then None
            else Some(db[table := db[table].(objects := db[table].objects + [text])])
  {
    ExecReplay(engine, text, db);
  }

  // --- commands about one table --------------------------------------------------------------------

  function ExecAllOn(engine: Engine, cs: seq<Command>, t: Table): Option<Table> {
    if cs == [] then Some(t)
    else
      match ExecOn(engine, cs[0], t)
      case None => None
      case Some(next) => ExecAllOn(engine, cs[1..], next)
  }

  /** Commands about one table change that table alone. */
  lemma {:induction false} ExecOneTable(engine: Engine, cs: seq<Command>, name: string, db: Db)
    requires forall k :: 0 <= k < |cs| ==> TableOf(cs[k]) == Some(name)
    requires cs != []
    ensures ExecAll(engine, cs, db)
         == if name !in db then None
            else
              match ExecAllOn(engine, cs, db[name])
              case None => None
              case Some(t) => Some(db[name := t])
  {
    if name in db && ExecOn(engine, cs[0], db[name]).Some? {
      var next := db[name := ExecOn(engine, cs[0], db[name]).value];
      if cs[1..] != [] {
        ExecOneTable(engine, cs[1..], name, next);
        if ExecAllOn(engine, cs[1..], next[name]).Some? {
          var t := ExecAllOn(engine, cs[1..], next[name]).value;
          assert next[name := t] == db[name := t];
        }
      }
    }
  }

  lemma {:induction false} ExecOnAppend(engine: Engine, a: seq<Command>, b: seq<Command>, t: Table)
    ensures ExecAllOn(engine, a + b, t)
         == match ExecAllOn(engine, a, t)
            case None => None
            case Some(next) => ExecAllOn(engine, b, next)
  {
    if a == [] {
      assert a + b == b;
    } else {
      assert (a + b)[1..] == a[1..] + b;
      match ExecOn(engine, a[0], t)
      case None =>
      case Some(next) => ExecOnAppend(engine, a[1..], b, next);
    }
  }
}
