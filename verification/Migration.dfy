/**
  What running the converted script does to a database. `MigrationResult` gives the outcome for every script and every
  database: it is refused exactly when `Ready` fails, and otherwise keeps every value of every column.
  */
module Migration {
  import opened Wrappers
  import opened Text
  import opened UnicodeConversion
  import opened StatementEffect
  import opened CreateScript
  import D = Database

  // --- the intended effect -------------------------------------------------------------------------

  /** The type a line gives to a column, if it converts that column. */
  function LineType(line: Line, column: string): Option<string> {
    if !line.Column? || line.name != column then None
    else if StartsWith(line.columnType, "nvarchar") then Some(line.columnType)
    else if StartsWith(line.columnType, "ntext") then Some("ntext")
    else None
  }

  /** The last conversion of a column wins. */
  function LinesType(lines: seq<Line>, column: string, original: string): string {
    if lines == [] then original
    else
      match LineType(lines[|lines| - 1], column)
      case Some(ty) => ty
      case None => LinesType(lines[..|lines| - 1], column, original)
  }

  function ScriptType(script: seq<Statement>, table: string, column: string, original: string): string {
    if script == [] then original
    else
      var s := script[|script| - 1];
      var before := ScriptType(script[..|script| - 1], table, column, original);
      if s.CreateTable? && s.name == table then LinesType(s.lines, column, before) else before
  }

  function ObjectsAfter(script: seq<Statement>, table: string, objects: seq<string>): seq<string> {
    if script == [] then objects
    else
      var s := script[|script| - 1];
      var before := ObjectsAfter(script[..|script| - 1], table, objects);
      if s.CreateTable? && s.name == table then []
      else if IsKept(s) && s.table == table then before + [Print(s)]
      else before
  }

  function MigratedTable(script: seq<Statement>, name: string, t: D.Table): D.Table {
    D.Table(t.rowCount,
            map c | c in t.columns ::
              D.Column(ScriptType(script, name, c, t.columns[c].columnType), t.columns[c].values),
            ObjectsAfter(script, name, t.objects))
  }

  /** Same tables, same columns, same values; converted columns have the script's type. */
  function Migrated(script: seq<Statement>, db: D.Db): D.Db {
    map name | name in db :: MigratedTable(script, name, db[name])
  }

  /** A converted column exists, its values fit, and the temporary name of a text column is not taken. */
  predicate LineReady(engine: D.Engine, line: Line, columns: map<string, D.Column>) {
    line.Column? ==>
      if StartsWith(line.columnType, "nvarchar")
      then line.name in columns && D.AllFit(engine, line.columnType, columns[line.name].values)
      else if StartsWith(line.columnType, "ntext")
      then line.name in columns && line.name + TMP !in columns && D.AllFit(engine, "ntext", columns[line.name].values)
      else true
  }

  predicate StatementReady(engine: D.Engine, s: Statement, db: D.Db) {
    if s.CreateTable?
    then s.name in db && forall k :: 0 <= k < |s.lines| ==> LineReady(engine, s.lines[k], db[s.name].columns)
    else IsKept(s) ==> s.table in db
  }

  predicate Ready(engine: D.Engine, script: seq<Statement>, db: D.Db) {
    forall k :: 0 <= k < |script| ==> StatementReady(engine, script[k], db)
  }

  // --- one column ----------------------------------------------------------------------------------

  lemma TextColumnMigrates(engine: D.Engine, name: string, col: string, t: D.Table)
    ensures D.ExecAllOn(engine, TextColumn(name, col), t)
         == if TextColumnReady(engine, col, t)
            then Some(t.(columns := t.columns[col := D.Column("ntext", t.columns[col].values)]))
            else None
  {
    var tmp, cs := col + TMP, TextColumn(name, col);
    if tmp !in t.columns {
      var t1 := t.(columns := t.columns[tmp := D.Column("ntext", D.Filled(t.rowCount, D.Null))]);
      assert D.ExecOn(engine, cs[0], t) == Some(t1);
      if col in t.columns && D.AllFit(engine, "ntext", t.columns[col].values) {
        var t2 := t.(columns := t.columns[tmp := D.Column("ntext", t.columns[col].values)]);
        assert t1.columns[tmp := t1.columns[tmp].(values := t.columns[col].values)] == t2.columns;
        assert D.ExecOn(engine, cs[1], t1) == Some(t2);
        DropAndRename(engine, name, col, t, t1, t2);
      } else {
        assert D.ExecOn(engine, cs[1], t1) == None;
      }
    }
  }

  /** A text column can be converted in this table. */
  predicate TextColumnReady(engine: D.Engine, col: string, t: D.Table) {
    && col in t.columns && col + TMP !in t.columns && D.AllFit(engine, "ntext", t.columns[col].values)
    && D.IsUnused(engine, t, col)
  }

  lemma DropAndRename(engine: D.Engine, name: string, col: string, t: D.Table, t1: D.Table, t2: D.Table)
    requires col in t.columns && col + TMP !in t.columns
    requires t2 == t.(columns := t.columns[col + TMP := D.Column("ntext", t.columns[col].values)])
    requires var cs := TextColumn(name, col);
             D.ExecOn(engine, cs[0], t) == Some(t1) && D.ExecOn(engine, cs[1], t1) == Some(t2)
    ensures D.ExecAllOn(engine, TextColumn(name, col), t)
         == if D.IsUnused(engine, t, col)
            then Some(t.(columns := t.columns[col := D.Column("ntext", t.columns[col].values)]))
            else None
  {
    var tmp, cs := col + TMP, TextColumn(name, col);
    assert D.IsUnused(engine, t2, col) == D.IsUnused(engine, t, col);
    if D.IsUnused(engine, t, col) {
      var t3 := t.(columns := t2.columns - {col});
      assert D.ExecOn(engine, cs[2], t2) == Some(t3);
      var t4 := t.(columns := t.columns[col := D.Column("ntext", t.columns[col].values)]);
      assert (t3.columns - {tmp})[col := t3.columns[tmp]] == t4.columns;
      assert D.ExecOn(engine, cs[3], t3) == Some(t4);
      FourSteps(engine, cs, t, t1, t2, t3, t4);
    } else {
      assert cs[1..][1..] == cs[2..];
      assert D.ExecOn(engine, cs[2], t2) == None && D.ExecAllOn(engine, cs[2..], t2) == None;
      assert D.ExecAllOn(engine, cs[1..], t1) == None;
    }
  }

  lemma FourSteps(engine: D.Engine, cs: seq<Command>,
                  t: D.Table, t1: D.Table, t2: D.Table, t3: D.Table, t4: D.Table)
    requires |cs| == 4
    requires D.ExecOn(engine, cs[0], t) == Some(t1) && D.ExecOn(engine, cs[1], t1) == Some(t2)
    requires D.ExecOn(engine, cs[2], t2) == Some(t3) && D.ExecOn(engine, cs[3], t3) == Some(t4)
    ensures D.ExecAllOn(engine, cs, t) == Some(t4)
  {
    assert cs[1..][1..] == cs[2..] && cs[2..][1..] == cs[3..] && cs[3..][1..] == [];
    assert D.ExecAllOn(engine, cs[3..], t3) == Some(t4);
    assert D.ExecAllOn(engine, cs[2..], t2) == Some(t4);
    assert D.ExecAllOn(engine, cs[1..], t1) == Some(t4);
  }

  function RetypedColumns(lines: seq<Line>, columns: map<string, D.Column>): map<string, D.Column> {
    map c | c in columns :: D.Column(LinesType(lines, c, columns[c].columnType), columns[c].values)
  }

  lemma LineMigrates(engine: D.Engine, name: string, lines: seq<Line>, columns: map<string, D.Column>, t: D.Table)
    requires lines != [] && t.objects == []
    requires t.columns == RetypedColumns(lines[..|lines| - 1], columns)
    ensures D.ExecAllOn(engine, CompileLine(name, lines[|lines| - 1]), t)
         == if LineReady(engine, lines[|lines| - 1], columns)
            then Some(t.(columns := RetypedColumns(lines, columns)))
            else None
  {
    var line := lines[|lines| - 1];
    if line.Column? && StartsWith(line.columnType, "nvarchar") {
      var c := AlterColumn(name, line.name, line.columnType);
      assert [c][1..] == [];
      assert D.ExecAllOn(engine, [c], t) == D.ExecOn(engine, c, t);
      if line.name in columns {
        assert t.columns[line.name := t.columns[line.name].(columnType := line.columnType)]
            == RetypedColumns(lines, columns);
      }
    } else if line.Column? && StartsWith(line.columnType, "ntext") {
      TextColumnMigrates(engine, name, line.name, t);
      if line.name in columns {
        assert t.columns[line.name := D.Column("ntext", t.columns[line.name].values)] == RetypedColumns(lines, columns);
      }
    } else {
      assert RetypedColumns(lines, columns) == t.columns;
    }
  }

  predicate LinesReady(engine: D.Engine, lines: seq<Line>, columns: map<string, D.Column>) {
    forall k :: 0 <= k < |lines| ==> LineReady(engine, lines[k], columns)
  }

  lemma LinesReadySnoc(engine: D.Engine, lines: seq<Line>, columns: map<string, D.Column>)
    requires lines != []
    ensures var n := |lines| - 1;
            LinesReady(engine, lines, columns)
            <==> LinesReady(engine, lines[..n], columns) && LineReady(engine, lines[n], columns)
  {
    var n := |lines| - 1;
    assert forall k :: 0 <= k < n ==> lines[..n][k] == lines[k];
    if !LinesReady(engine, lines[..n], columns) {
      var k :| 0 <= k < n && !LineReady(engine, lines[..n][k], columns);
      assert !LineReady(engine, lines[k], columns);
    }
  }

  // --- one table, then the script ------------------------------------------------------------------

  lemma {:induction false} LinesMigrate(engine: D.Engine, name: string, lines: seq<Line>, t: D.Table)
    requires t.objects == []
    ensures D.ExecAllOn(engine, CompileLines(name, lines), t)
         == if LinesReady(engine, lines, t.columns)
            then Some(t.(columns := RetypedColumns(lines, t.columns)))
            else None
  {
    if lines == [] {
      assert RetypedColumns(lines, t.columns) == t.columns;
    } else {
      var n := |lines| - 1;
      LinesMigrate(engine, name, lines[..n], t);
      D.ExecOnAppend(engine, CompileLines(name, lines[..n]), CompileLine(name, lines[n]), t);
      LinesReadySnoc(engine, lines, t.columns);
      if LinesReady(engine, lines[..n], t.columns) {
        LineMigrates(engine, name, lines, t.columns, t.(columns := RetypedColumns(lines[..n], t.columns)));
      }
    }
  }

  lemma {:induction false} CompiledForTable(name: string, lines: seq<Line>)
    ensures forall k :: 0 <= k < |CompileLines(name, lines)| ==> D.TableOf(CompileLines(name, lines)[k]) == Some(name)
  {
    if lines != [] {
      CompiledForTable(name, lines[..|lines| - 1]);
    }
  }

  lemma SameReadiness(engine: D.Engine, lines: seq<Line>, script: seq<Statement>, name: string, t: D.Table)
    ensures LinesReady(engine, lines, MigratedTable(script, name, t).columns) == LinesReady(engine, lines, t.columns)
  {
    var columns := MigratedTable(script, name, t).columns;
    forall k | 0 <= k < |lines|
      ensures LineReady(engine, lines[k], columns) == LineReady(engine, lines[k], t.columns)
    {
    }
  }

  lemma RetypedIsMigrated(script: seq<Statement>, t: D.Table)
    requires script != [] && script[|script| - 1].CreateTable?
    ensures var n := |script| - 1;
            var before := MigratedTable(script[..n], script[n].name, t);
            D.Table(t.rowCount, RetypedColumns(script[n].lines, before.columns), [])
            == MigratedTable(script, script[n].name, t)
  {
  }

  lemma OtherTables(script: seq<Statement>, name: string, t: D.Table)
    requires script != []
    requires var s := script[|script| - 1];
             if s.CreateTable? then s.name != name else !IsKept(s) || s.table != name
    ensures MigratedTable(script, name, t) == MigratedTable(script[..|script| - 1], name, t)
  {
  }

  lemma TableMigrates(engine: D.Engine, script: seq<Statement>, db: D.Db)
    requires script != [] && script[|script| - 1].CreateTable?
    ensures var n := |script| - 1;
            D.ExecAll(engine, Compile(script[n]), Migrated(script[..n], db))
            == if StatementReady(engine, script[n], db) then Some(Migrated(script, db)) else None
  {
    var n := |script| - 1;
    var name, lines, db0 := script[n].name, script[n].lines, Migrated(script[..n], db);
    var cs := [DropObjects(name)] + CompileLines(name, lines);
    CompiledForTable(name, lines);
    D.ExecOneTable(engine, cs, name, db0);
    if name in db {
      assert cs[1..] == CompileLines(name, lines);
      LinesMigrate(engine, name, lines, db0[name].(objects := []));
      SameReadiness(engine, lines, script[..n], name, db[name]);
      RetypedIsMigrated(script, db[name]);
      OneTableChanged(script, name, db);
    }
  }

  lemma OneTableChanged(script: seq<Statement>, name: string, db: D.Db)
    requires script != [] && name in db
    requires var s := script[|script| - 1]; if s.CreateTable? then s.name == name else IsKept(s) ==> s.table == name
    ensures Migrated(script[..|script| - 1], db)[name := MigratedTable(script, name, db[name])] == Migrated(script, db)
  {
    forall other | other in db && other != name
      ensures MigratedTable(script, other, db[other]) == MigratedTable(script[..|script| - 1], other, db[other])
    {
      OtherTables(script, other, db[other]);
    }
  }

  lemma ObjectMigrates(engine: D.Engine, script: seq<Statement>, db: D.Db)
    requires script != [] && WellFormed(script[|script| - 1]) && IsKept(script[|script| - 1])
    ensures var n := |script| - 1;
            D.ExecAll(engine, Compile(script[n]), Migrated(script[..n], db))
            == if StatementReady(engine, script[n], db) then Some(Migrated(script, db)) else None
  {
    var n := |script| - 1;
    var s := script[n];
    PrintedEffect(s);
    D.ObjectExecutes(engine, Print(s), s.table, Migrated(script[..n], db));
    if s.table in db {
      ObjectAdded(script, db);
    }
  }

  lemma ObjectAdded(script: seq<Statement>, db: D.Db)
    requires script != [] && IsKept(script[|script| - 1]) && script[|script| - 1].table in db
    ensures var s, db0 := script[|script| - 1], Migrated(script[..|script| - 1], db);
            db0[s.table := db0[s.table].(objects := db0[s.table].objects + [Print(s)])] == Migrated(script, db)
  {
    var s, t := script[|script| - 1], Migrated(script[..|script| - 1], db)[script[|script| - 1].table];
    assert t.(objects := t.objects + [Print(s)]) == MigratedTable(script, s.table, db[s.table]);
    OneTableChanged(script, s.table, db);
  }

  lemma NothingMigrates(script: seq<Statement>, db: D.Db)
    requires script != [] && !script[|script| - 1].CreateTable? && !IsKept(script[|script| - 1])
    ensures Migrated(script, db) == Migrated(script[..|script| - 1], db)
  {
    forall name | name in db
      ensures MigratedTable(script, name, db[name]) == MigratedTable(script[..|script| - 1], name, db[name])
    {
      OtherTables(script, name, db[name]);
    }
  }

  lemma StatementMigrates(engine: D.Engine, script: seq<Statement>, db: D.Db)
    requires script != [] && WellFormed(script[|script| - 1])
    ensures var n := |script| - 1;
            D.ExecAll(engine, Compile(script[n]), Migrated(script[..n], db))
            == if StatementReady(engine, script[n], db) then Some(Migrated(script, db)) else None
  {
    var s := script[|script| - 1];
    if s.CreateTable? {
      TableMigrates(engine, script, db);
    } else if IsKept(s) {
      ObjectMigrates(engine, script, db);
    } else {
      NothingMigrates(script, db);
    }
  }

  lemma ReadySnoc(engine: D.Engine, script: seq<Statement>, db: D.Db)
    requires script != []
    ensures var n := |script| - 1;
            Ready(engine, script, db) <==> Ready(engine, script[..n], db) && StatementReady(engine, script[n], db)
  {
    var n := |script| - 1;
    assert forall k :: 0 <= k < n ==> script[..n][k] == script[k];
    if !Ready(engine, script[..n], db) {
      var k :| 0 <= k < n && !StatementReady(engine, script[..n][k], db);
      assert !StatementReady(engine, script[k], db);
    }
  }

  /** The outcome of the whole migration, for every script in the layout and every database. */
  lemma {:induction false} MigrationResult(engine: D.Engine, script: seq<Statement>, db: D.Db)
    requires forall k :: 0 <= k < |script| ==> WellFormed(script[k])
    ensures D.ExecAll(engine, CompileScript(script), db)
         == if Ready(engine, script, db) then Some(Migrated(script, db)) else None
  {
    if script == [] {
      forall name | name in db ensures MigratedTable(script, name, db[name]) == db[name] {}
      assert Migrated(script, db) == db;
    } else {
      var n := |script| - 1;
      MigrationResult(engine, script[..n], db);
      D.ExecAppend(engine, CompileScript(script[..n]), Compile(script[n]), db);
      StatementMigrates(engine, script, db);
      ReadySnoc(engine, script, db);
    }
  }

  // --- reading a printed index or constraint statement ---------------------------------------------

  /** A kept statement in the layout creates an index or adds a key of its table and does nothing else. */
  lemma PrintedEffect(s: Statement)
    requires WellFormed(s) && IsKept(s)
    ensures EffectOf(Print(s)) == AddsObject(s.table)
  {
    CleanIfApart(s.table, " ");
    if s.AddConstraint? {
      ConstraintEffect(s.table, s.tail);
    } else {
      CleanIfApart(s.name, " ");
      IndexTokens(s);
    }
  }

  lemma TokensAfter(text: string, words: seq<string>, tail: string)
    requires Split(text, " ") == words + Split(tail, " ") && forall k :: 0 <= k < |words| ==> words[k] != ""
    ensures Tokens(text) == words + Tokens(tail)
  {
    NonEmptyAppend(words, Split(tail, " "));
    NonEmptyKeeps(words);
  }

  lemma ThreeWords(a: string, b: string, c: string, rest: string)
    requires Clean(a, " ") && Clean(b, " ") && Clean(c, " ")
    ensures Split(a + " " + (b + " " + (c + " " + rest)), " ") == [a, b, c] + Split(rest, " ")
  {
    SplitHead(a, " ", b + " " + (c + " " + rest));
    SplitHead(b, " ", c + " " + rest);
    SplitHead(c, " ", rest);
  }

  const KEYWORDS: set<string> :=
    {"alter", "table", "add", "drop", "column", "create", "index", "clustered", "on"}

  lemma Keywords()
    ensures forall w | w in KEYWORDS :: Clean(w, " ")
  {
    forall w | w in KEYWORDS ensures Clean(w, " ") {
      CleanIfApart(w, " ");
    }
  }

  lemma ConstraintEffect(table: string, tail: string)
    requires IsIdentifier(table) && Clean(table, " ") && IsConstraint(Tokens(tail))
    ensures EffectOf("alter table " + (table + " add " + tail)) == AddsObject(table)
  {
    var words := ["alter", "table", table, "add"];
    AlterAddSplit(table, tail);
    TokensAfter("alter table " + (table + " add " + tail), words, tail);
    ConstraintIsObject(words + Tokens(tail), table, Tokens(tail));
  }

  lemma ConstraintIsObject(words: seq<string>, table: string, rest: seq<string>)
    requires words == ["alter", "table", table, "add"] + rest && IsIdentifier(table) && IsConstraint(rest)
    ensures WordsEffect(words) == AddsObject(table)
  {
    assert words[3..] == ["add"] + rest && words[3..][1..] == rest;
  }

  lemma AlterAddSplit(table: string, tail: string)
    requires Clean(table, " ")
    ensures Split("alter table " + (table + " add " + tail), " ") == ["alter", "table", table, "add"] + Split(tail, " ")
  {
    Keywords();
    ConstraintWords(table, tail);
    ThreeWords("alter", "table", table, "add" + " " + tail);
    SplitHead("add", " ", tail);
  }

  lemma ConstraintWords(table: string, tail: string)
    ensures "alter table " + (table + " add " + tail)
         == "alter" + " " + ("table" + " " + (table + " " + ("add" + " " + tail)))
  {
    assert "alter table " == "alter" + " " + "table" + " ";
    assert " add " == " " + "add" + " ";
    Regroup("alter", "table", table, "add", tail);
  }

  lemma Regroup(a: string, b: string, c: string, d: string, rest: string)
    ensures (a + " " + b + " ") + (c + (" " + d + " ") + rest) == a + " " + (b + " " + (c + " " + (d + " " + rest)))
  {
  }

  lemma IndexTokens(s: Statement)
    requires WellFormed(s) && s.CreateIndex? && IsKept(s) && Clean(s.name, " ") && Clean(s.table, " ")
    ensures EffectOf(Print(s)) == AddsObject(s.table)
  {
    var first := IndexStart(s);
    IndexIsObject(Tokens(Print(s)), first, s.name, s.table, Tokens(s.tail));
  }

  /** The words of a printed index statement. */
  lemma IndexStart(s: Statement) returns (first: seq<string>)
    requires WellFormed(s) && s.CreateIndex? && IsKept(s) && Clean(s.name, " ") && Clean(s.table, " ")
    ensures first == ["create"] || first == ["create", "clustered"]
    ensures Tokens(Print(s)) == first + ["index", s.name, "on", s.table] + Tokens(s.tail)
  {
    if s.kind.Unmarked? {
      first := ["create"];
      PlainIndexSplit(s);
    } else {
      first := ["create", "clustered"];
      ClusteredIndexSplit(s);
    }
    IndexWordsAfter(Print(s), first, s.name, s.table, s.tail);
  }

  lemma IndexWordsAfter(text: string, first: seq<string>, name: string, table: string, tail: string)
    requires first == ["create"] || first == ["create", "clustered"]
    requires name != "" && table != ""
    requires Split(text, " ") == first + ["index", name, "on", table] + Split(tail, " ")
    ensures Tokens(text) == first + ["index", name, "on", table] + Tokens(tail)
  {
    TokensAfter(text, first + ["index", name, "on", table], tail);
  }

  lemma IndexIsObject(words: seq<string>, first: seq<string>, name: string, table: string, rest: seq<string>)
    requires first == ["create"] || first == ["create", "clustered"]
    requires words == first + ["index", name, "on", table] + rest
    requires IsIdentifier(name) && IsIdentifier(table) && IsColumnList(rest)
    ensures WordsEffect(words) == AddsObject(table)
  {
    var after := ["index", name, "on", table] + rest;
    assert words[|first|..] == after && after[4..] == rest;
    assert words[1] == if |first| == 1 then "index" else "clustered";
  }

  lemma PlainIndexSplit(s: Statement)
    requires s.CreateIndex? && s.kind.Unmarked? && Clean(s.name, " ") && Clean(s.table, " ")
    ensures Split(Print(s), " ") == ["create", "index", s.name, "on", s.table] + Split(s.tail, " ")
  {
    Keywords();
    IndexWords(s);
    FiveWords("create", "index", s.name, "on", s.table, s.tail);
  }

  lemma FiveWords(a: string, b: string, c: string, d: string, e: string, rest: string)
    requires Clean(a, " ") && Clean(b, " ") && Clean(c, " ") && Clean(d, " ") && Clean(e, " ")
    ensures Split(a + " " + (b + " " + (c + " " + (d + " " + (e + " " + rest)))), " ")
         == [a, b, c, d, e] + Split(rest, " ")
  {
    ThreeWords(c, d, e, rest);
    var tail := c + " " + (d + " " + (e + " " + rest));
    SplitHead(b, " ", tail);
    SplitHead(a, " ", b + " " + tail);
  }

  lemma ClusteredIndexSplit(s: Statement)
    requires s.CreateIndex? && s.kind.Clustered? && Clean(s.name, " ") && Clean(s.table, " ")
    ensures Split(Print(s), " ") == ["create", "clustered", "index", s.name, "on", s.table] + Split(s.tail, " ")
  {
    Keywords();
    IndexWords(s);
    SixWords("create", "clustered", "index", s.name, "on", s.table, s.tail);
  }

  lemma SixWords(a: string, b: string, c: string, d: string, e: string, f: string, rest: string)
    requires Clean(a, " ") && Clean(b, " ") && Clean(c, " ") && Clean(d, " ") && Clean(e, " ") && Clean(f, " ")
    ensures Split(a + " " + (b + " " + (c + " " + (d + " " + (e + " " + (f + " " + rest))))), " ")
         == [a, b, c, d, e, f] + Split(rest, " ")
  {
    ThreeWords(d, e, f, rest);
    ThreeWords(a, b, c, d + " " + (e + " " + (f + " " + rest)));
  }

  lemma IndexWords(s: Statement)
    requires s.CreateIndex? && IsKept(s)
    ensures var rest := "index" + " " + (s.name + " " + ("on" + " " + (s.table + " " + s.tail)));
            Print(s) == if s.kind.Unmarked? then "create" + " " + rest else "create" + " " + ("clustered" + " " + rest)
  {
    assert "create " == "create" + " ";
    assert "index " == "index" + " ";
    assert "clustered " == "clustered" + " ";
    assert " on " == " " + "on" + " ";
    RegroupIndex("create", "clustered", "index", s.name, "on", s.table + " " + s.tail);
  }

  lemma RegroupIndex(a: string, b: string, c: string, name: string, d: string, rest: string)
    ensures (a + " ") + "" + (c + " ") + (name + (" " + d + " ") + rest)
         == a + " " + (c + " " + (name + " " + (d + " " + rest)))
    ensures (a + " ") + (b + " ") + (c + " ") + (name + (" " + d + " ") + rest)
         == a + " " + (b + " " + (c + " " + (name + " " + (d + " " + rest))))
  {
  }
}
