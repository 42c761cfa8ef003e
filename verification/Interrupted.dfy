/**
  What stands in the database when the migration of a text stops half-way, because a command is refused or for any other
  reason. `InterruptedKeepsData` proves that at every such moment the values of a column are there, under its own name
  or, within the conversion of that one column, under the temporary name.
  */
module Interrupted {
  import opened Wrappers
  import opened Text
  import opened UnicodeConversion
  import opened OutputFile
  import opened StatementEffect
  import opened CreateScript
  import opened Migration
  import opened DataKept
  import D = Database

  ghost predicate IsUnder(t: D.Table, name: string, values: seq<D.Value>) {
    name in t.columns && t.columns[name].values == values
  }

  /** The values of the column stand under its name or its temporary name. */
  ghost predicate Stands(t: D.Table, column: string, values: seq<D.Value>) {
    IsUnder(t, column, values) || IsUnder(t, column + TMP, values)
  }

  /** If the commands are executed, the values of the column stand. */
  ghost predicate LeavesStanding(engine: D.Engine, commands: seq<Command>, t: D.Table, column: string)
    requires column in t.columns
  {
    var after := D.ExecAllOn(engine, commands, t);
    after.Some? ==> after.value.rowCount == t.rowCount && Stands(after.value, column, t.columns[column].values)
  }

  // --- one column -----------------------------------------------------------------------------------

  lemma OneMore(engine: D.Engine, commands: seq<Command>, j: nat, t: D.Table)
    requires j < |commands|
    ensures D.ExecAllOn(engine, commands[..j + 1], t)
         == match D.ExecAllOn(engine, commands[..j], t)
            case None => None
            case Some(next) => D.ExecOn(engine, commands[j], next)
  {
    assert commands[..j + 1] == commands[..j] + [commands[j]];
    D.ExecOnAppend(engine, commands[..j], [commands[j]], t);
    assert [commands[j]][1..] == [];
  }

  /** The columns while a text column is converted, after each of the four commands. */
  ghost predicate IsStage(j: nat, column: string, t: D.Table, after: D.Table) {
    && after.rowCount == t.rowCount
    && (j > 0 ==> column + TMP !in t.columns)
    && (j > 1 ==> column in t.columns)
    && (forall c :: c in t.columns && c != column ==> c in after.columns && after.columns[c] == t.columns[c])
    && (j != 3 && column in t.columns ==> IsUnder(after, column, t.columns[column].values))
    && (j == 2 || j == 3 ==> IsUnder(after, column + TMP, t.columns[column].values))
    && (j == 1 ==> column + TMP in after.columns)
    && (j < 3 ==> (column in after.columns <==> column in t.columns))
    && (j == 3 ==> column !in after.columns)
  }

  lemma StageAfter(engine: D.Engine, table: string, column: string, j: nat, t: D.Table, before: D.Table)
    requires j < 4 && IsStage(j, column, t, before)
    ensures var after := D.ExecOn(engine, TextColumn(table, column)[j], before);
            after.Some? ==> IsStage(j + 1, column, t, after.value)
  {
    assert column + TMP != column;
  }

  lemma {:induction false} Stages(engine: D.Engine, table: string, column: string, j: nat, t: D.Table)
    requires j <= 4
    ensures var after := D.ExecAllOn(engine, TextColumn(table, column)[..j], t);
            after.Some? ==> IsStage(j, column, t, after.value)
  {
    if j > 0 {
      Stages(engine, table, column, j - 1, t);
      OneMore(engine, TextColumn(table, column), j - 1, t);
      var before := D.ExecAllOn(engine, TextColumn(table, column)[..j - 1], t);
      if before.Some? {
        StageAfter(engine, table, column, j - 1, t, before.value);
      }
    }
  }

  // --- one table definition -------------------------------------------------------------------------

  lemma LineStands(engine: D.Engine, table: string, line: string, j: nat, t: D.Table, column: string)
    requires column in t.columns && j <= |LineCommands(table, line)|
    ensures LeavesStanding(engine, LineCommands(table, line)[..j], t, column)
  {
    var cs := LineCommands(table, line);
    if |cs| > 1 {
      assert cs == TextColumn(table, cs[3].newName);
      Stages(engine, table, cs[3].newName, j, t);
    } else if j == |cs| {
      assert cs[..j] == cs;
      LineKeeps(engine, table, line, t);
    }
  }

  lemma {:induction false} LinesStand(
      engine: D.Engine, table: string, lines: seq<string>, j: nat, t: D.Table, column: string)
    requires column in t.columns && j <= |LinesCommands(table, lines)|
    ensures LeavesStanding(engine, LinesCommands(table, lines)[..j], t, column)
  {
    if lines != [] {
      var n := |lines| - 1;
      var before, last := LinesCommands(table, lines[..n]), LineCommands(table, lines[n]);
      if j <= |before| {
        LinesStand(engine, table, lines[..n], j, t, column);
        assert (before + last)[..j] == before[..j];
      } else {
        var i := j - |before|;
        assert (before + last)[..j] == before + last[..i];
        D.ExecOnAppend(engine, before, last[..i], t);
        LinesKeep(engine, table, lines[..n], t);
        if D.ExecAllOn(engine, before, t).Some? {
          LineStands(engine, table, lines[n], i, D.ExecAllOn(engine, before, t).value, column);
        }
      }
    }
  }

  // --- every text -----------------------------------------------------------------------------------

  /** If the commands are executed, there are the same tables and the values of the column stand. */
  ghost predicate AllStanding(engine: D.Engine, commands: seq<Command>, db: D.Db, table: string, column: string)
    requires table in db && column in db[table].columns
  {
    var after := D.ExecAll(engine, commands, db);
    after.Some? ==>
      SameTables(db, after.value) && Stands(after.value[table], column, db[table].columns[column].values)
  }

  lemma TableStands(engine: D.Engine, piece: string, j: nat, db: D.Db, table: string, column: string)
    requires IsTable(piece) && TableName(piece).Some? && j <= |PieceCommands(piece).value|
    requires table in db && column in db[table].columns
    ensures AllStanding(engine, PieceCommands(piece).value[..j], db, table, column)
  {
    var name, cs := TableName(piece).value, PieceCommands(piece).value;
    TableCommandsAbout(piece);
    if j > 0 {
      D.ExecOneTable(engine, cs[..j], name, db);
      if name in db {
        RowCountKept(engine, name, cs[..j], db[name]);
      }
      if name == table {
        LinesStand(engine, name, Split(piece, NEW_LINE), j, db[table], column);
      }
    }
  }

  lemma ExecKeepsRows(engine: D.Engine, c: Command, t: D.Table)
    ensures var after := D.ExecOn(engine, c, t); after.Some? ==> after.value.rowCount == t.rowCount
  {
    if c.Replay? {
      ReplayKeepsRows(engine, c.text, EffectOf(c.text), t);
    }
  }

  lemma ReplayKeepsRows(engine: D.Engine, text: string, effect: Effect, t: D.Table)
    requires effect == EffectOf(text)
    ensures var after := D.ReplayOn(engine, text, t); after.Some? ==> after.value.rowCount == t.rowCount
  {
  }

  lemma {:induction false} RowCountKept(engine: D.Engine, table: string, commands: seq<Command>, t: D.Table)
    ensures var after := D.ExecAllOn(engine, commands, t); after.Some? ==> after.value.rowCount == t.rowCount
  {
    if commands != [] && D.ExecOn(engine, commands[0], t).Some? {
      ExecKeepsRows(engine, commands[0], t);
      RowCountKept(engine, table, commands[1..], D.ExecOn(engine, commands[0], t).value);
    }
  }

  lemma PieceStands(engine: D.Engine, piece: string, j: nat, db: D.Db, table: string, column: string)
    requires PieceCommands(piece).Some? && (IsReplayed(piece) ==> !EffectOf(piece).Unread?)
    requires j <= |PieceCommands(piece).value| && table in db && column in db[table].columns
    requires !PieceFate(piece, table, column).Dropped?
    ensures AllStanding(engine, PieceCommands(piece).value[..j], db, table, column)
  {
    var cs := PieceCommands(piece).value;
    if IsTable(piece) {
      TableStands(engine, piece, j, db, table, column);
    } else if j == |cs| {
      assert cs[..j] == cs;
      PieceIsStep(engine, piece, db);
    } else {
      assert cs[..j] == [];
    }
  }

  lemma {:induction false} PiecesStand(
      engine: D.Engine, pieces: seq<string>, j: nat, db: D.Db, table: string, column: string)
    requires PiecesCommands(pieces).Some? && AllRead(pieces) && j <= |PiecesCommands(pieces).value|
    requires table in db && column in db[table].columns
    requires forall k :: 0 <= k < |pieces| ==> !PieceFate(pieces[k], table, column).Dropped?
    ensures AllStanding(engine, PiecesCommands(pieces).value[..j], db, table, column)
  {
    if pieces != [] {
      var n := |pieces| - 1;
      var before, last := PiecesCommands(pieces[..n]).value, PieceCommands(pieces[n]).value;
      AllReadSnoc(pieces);
      if j <= |before| {
        PiecesStand(engine, pieces[..n], j, db, table, column);
        assert (before + last)[..j] == before[..j];
      } else {
        var i := j - |before|;
        assert (before + last)[..j] == before + last[..i];
        D.ExecAppend(engine, before, last[..i], db);
        if D.ExecAll(engine, before, db).Some? {
          var mid := D.ExecAll(engine, before, db).value;
          IsUnderBetween(engine, pieces[..n], db, mid, table, column);
          PieceStands(engine, pieces[n], i, mid, table, column);
        }
      }
    }
  }

  /** Between two paragraphs the values stand under the column's own name. */
  lemma IsUnderBetween(engine: D.Engine, pieces: seq<string>, db: D.Db, mid: D.Db, table: string, column: string)
    requires PiecesCommands(pieces).Some? && AllRead(pieces)
    requires table in db && column in db[table].columns
    requires forall k :: 0 <= k < |pieces| ==> !PieceFate(pieces[k], table, column).Dropped?
    requires D.ExecAll(engine, PiecesCommands(pieces).value, db) == Some(mid)
    ensures SameTables(db, mid) && IsUnder(mid[table], column, db[table].columns[column].values)
  {
    PiecesOutcome(engine, pieces, db);
    FateHasPiece(pieces, table, column);
    WasThere(engine, pieces, db, table, column);
    assert Meets(engine, FateOf(pieces, table, column), db[table], mid[table], column);
  }

  /** The database when the commands have been executed up to the first one refused. */
  function Reached(engine: D.Engine, commands: seq<Command>, db: D.Db): D.Db {
    if commands == [] then db
    else
      match D.Exec(engine, commands[0], db)
      case None => db
      case Some(next) => Reached(engine, commands[1..], next)
  }

  lemma {:induction false} ReachedByPrefix(engine: D.Engine, commands: seq<Command>, db: D.Db) returns (j: nat)
    ensures j <= |commands| && D.ExecAll(engine, commands[..j], db) == Some(Reached(engine, commands, db))
    ensures j < |commands| ==> D.Exec(engine, commands[j], Reached(engine, commands, db)) == None
  {
    j := 0;
    if commands != [] && D.Exec(engine, commands[0], db).Some? {
      var i := ReachedByPrefix(engine, commands[1..], D.Exec(engine, commands[0], db).value);
      j := i + 1;
      assert commands[..j][1..] == commands[1..][..i];
    }
  }

  /**
    For every text whose passed-through statements are read, and every column that none of them drops: after any number
    of executed commands, and so where the migration is refused, there are the same tables with as many rows, and the
    values of the column stand under its name or its temporary name.
    */
  lemma InterruptedKeepsData(engine: D.Engine, contents: string, db: D.Db, table: string, column: string)
    requires ScriptCommands(contents).Some? && AllRead(ScriptPieces(contents))
    requires table in db && column in db[table].columns
    requires var pieces := ScriptPieces(contents);
             forall k :: 0 <= k < |pieces| ==> !PieceFate(pieces[k], table, column).Dropped?
    ensures var commands := ScriptCommands(contents).value;
            && (forall j :: 0 <= j <= |commands| ==> AllStanding(engine, commands[..j], db, table, column))
            && SameTables(db, Reached(engine, commands, db))
            && Stands(Reached(engine, commands, db)[table], column, db[table].columns[column].values)
  {
    var commands := ScriptCommands(contents).value;
    forall j | 0 <= j <= |commands| ensures AllStanding(engine, commands[..j], db, table, column) {
      PiecesStand(engine, ScriptPieces(contents), j, db, table, column);
    }
    var j := ReachedByPrefix(engine, commands, db);
    assert AllStanding(engine, commands[..j], db, table, column);
  }

  // --- creation scripts -----------------------------------------------------------------------------

  lemma PrintedIsObject(s: Statement)
    requires WellFormed(s) && IsReplayed(Print(s))
    ensures EffectOf(Print(s)).AddsObject?
  {
    match s {
      case CreateTable(_, _, _) =>
        PrintedTableName(s);
        ReplayedIsNotTable(Print(s));
      case CreateIndex(_, _, _, _) =>
        IndexIsReplayed(s);
        PrintedEffect(s);
      case AddConstraint(_, _) =>
        PrintedEffect(s);
      case Other(_) =>
    }
  }

  /** In a creation script in the layout every passed-through statement is read, and none touches a column. */
  lemma LayoutIsRead(contents: string, script: seq<Statement>)
    requires WellFormedScript(script) && IsCasing(contents, PrintScript(script))
    ensures AllRead(ScriptPieces(contents)) && NoneAdds(ScriptPieces(contents)) && NoneDrops(ScriptPieces(contents))
  {
    var pieces := ScriptPieces(contents);
    CasedScriptPieces(contents, script);
    forall k | 0 <= k < |pieces| && IsReplayed(pieces[k]) ensures EffectOf(pieces[k]).AddsObject? {
      assert pieces[k] == Print(script[k]);
      PrintedIsObject(script[k]);
    }
  }

  lemma ExecKeepsTables(engine: D.Engine, c: Command, db: D.Db)
    requires D.TableOf(c).Some?
    ensures var after := D.Exec(engine, c, db); after.Some? ==> SameTables(db, after.value)
  {
    var name := D.TableOf(c).value;
    if name in db {
      ExecKeepsRows(engine, c, db[name]);
    }
  }

  lemma {:induction false} ReachedKeepsTables(engine: D.Engine, commands: seq<Command>, db: D.Db)
    requires forall k :: 0 <= k < |commands| ==> D.TableOf(commands[k]).Some?
    ensures SameTables(db, Reached(engine, commands, db))
  {
    if commands != [] && D.Exec(engine, commands[0], db).Some? {
      ExecKeepsTables(engine, commands[0], db);
      ReachedKeepsTables(engine, commands[1..], D.Exec(engine, commands[0], db).value);
    }
  }

  lemma PieceHasTables(piece: string)
    requires PieceCommands(piece).Some? && (IsReplayed(piece) ==> !EffectOf(piece).Unread?)
    ensures forall c :: c in PieceCommands(piece).value ==> D.TableOf(c).Some?
  {
    if IsTable(piece) {
      TableDropsFirst(piece);
    }
  }

  lemma {:induction false} PiecesHaveTables(pieces: seq<string>)
    requires PiecesCommands(pieces).Some? && AllRead(pieces)
    ensures forall c :: c in PiecesCommands(pieces).value ==> D.TableOf(c).Some?
  {
    if pieces != [] {
      AllReadSnoc(pieces);
      PiecesHaveTables(pieces[..|pieces| - 1]);
      PieceHasTables(pieces[|pieces| - 1]);
    }
  }

  /**
    Wherever the migration of a creation script in the layout is refused, there are the same tables with as many rows,
    and the values of every column stand under its name or its temporary name.
    */
  lemma InterruptedScriptKeepsData(engine: D.Engine, contents: string, script: seq<Statement>, db: D.Db)
    requires WellFormedScript(script) && IsCasing(contents, PrintScript(script))
    ensures ScriptCommands(contents).Some?
    ensures var reached := Reached(engine, ScriptCommands(contents).value, db);
            SameTables(db, reached) &&
            forall t, c :: t in db && c in db[t].columns ==> Stands(reached[t], c, db[t].columns[c].values)
  {
    ConvertsPrintedScript(contents, script);
    LayoutIsRead(contents, script);
    var commands, pieces := ScriptCommands(contents).value, ScriptPieces(contents);
    PiecesHaveTables(pieces);
    ReachedKeepsTables(engine, commands, db);
    forall t, c | t in db && c in db[t].columns
      ensures Stands(Reached(engine, commands, db)[t], c, db[t].columns[c].values)
    {
      forall k | 0 <= k < |pieces| ensures !PieceFate(pieces[k], t, c).Dropped? { assert !Drops(pieces[k]); }
      InterruptedKeepsData(engine, contents, db, t, c);
    }
  }
}
