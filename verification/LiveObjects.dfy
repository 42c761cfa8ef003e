/**
  The order that keeps the real engine content: it refuses to alter or drop a column that a live index or constraint of
  the table is about. `NoLiveObjects` proves, for every text the converter accepts and every database, that no emitted
  command finds its table in that state.
  */
module LiveObjects {
  import opened UnicodeConversion
  import D = Database

  /** The commands that convert a column. */
  predicate ChangesColumn(c: Command) {
    !c.Replay? && !c.DropObjects?
  }

  /** Before the k-th command the objects of its table are dropped, and nothing is passed through in between. */
  ghost predicate DroppedBefore(commands: seq<Command>, k: nat)
    requires k < |commands| && !commands[k].Replay?
  {
    exists j ::
      && 0 <= j < k && commands[j] == DropObjects(commands[k].table)
      && forall m :: j < m < k ==> !commands[m].Replay?
  }

  ghost predicate AllDroppedBefore(commands: seq<Command>) {
    forall k :: 0 <= k < |commands| && ChangesColumn(commands[k]) ==> DroppedBefore(commands, k)
  }

  lemma PieceDropsFirst(piece: string)
    requires PieceCommands(piece).Some?
    ensures AllDroppedBefore(PieceCommands(piece).value)
  {
    if IsTable(piece) {
      TableDropsFirst(piece);
      var table, commands := TableName(piece).value, PieceCommands(piece).value;
      forall k | 0 <= k < |commands| && ChangesColumn(commands[k]) ensures DroppedBefore(commands, k) {
        assert commands[k] in commands;
        assert commands[0] == DropObjects(commands[k].table);
        forall m | 0 < m < k ensures !commands[m].Replay? { assert commands[m] in commands; }
      }
    }
  }

  lemma DroppedAppend(a: seq<Command>, b: seq<Command>)
    requires AllDroppedBefore(a) && AllDroppedBefore(b)
    ensures AllDroppedBefore(a + b)
  {
    var all := a + b;
    forall k | 0 <= k < |all| && ChangesColumn(all[k]) ensures DroppedBefore(all, k) {
      if k < |a| {
        assert DroppedBefore(a, k);
        var j :| 0 <= j < k && a[j] == DropObjects(a[k].table) && forall m :: j < m < k ==> !a[m].Replay?;
        assert all[j] == DropObjects(all[k].table);
      } else {
        var n := k - |a|;
        assert DroppedBefore(b, n);
        var j :| 0 <= j < n && b[j] == DropObjects(b[n].table) && forall m :: j < m < n ==> !b[m].Replay?;
        assert all[|a| + j] == DropObjects(all[k].table);
        forall m | |a| + j < m < k ensures !all[m].Replay? { assert all[m] == b[m - |a|]; }
      }
    }
  }

  lemma {:induction false} PiecesDropFirst(pieces: seq<string>)
    requires PiecesCommands(pieces).Some?
    ensures AllDroppedBefore(PiecesCommands(pieces).value)
  {
    if pieces != [] {
      var n := |pieces| - 1;
      PiecesDropFirst(pieces[..n]);
      PieceDropsFirst(pieces[n]);
      DroppedAppend(PiecesCommands(pieces[..n]).value, PieceCommands(pieces[n]).value);
    }
  }

  /** For every script: each command that changes a column comes after the drop of its table's objects. */
  lemma DropComesFirst(contents: string, k: nat)
    requires ScriptCommands(contents).Some? && k < |ScriptCommands(contents).value|
    requires ChangesColumn(ScriptCommands(contents).value[k])
    ensures DroppedBefore(ScriptCommands(contents).value, k)
  {
    PiecesDropFirst(ScriptPieces(contents));
  }

  // --- executed -----------------------------------------------------------------------------------

  predicate WithoutObjects(db: D.Db, table: string) {
    table in db && db[table].objects == []
  }

  lemma {:induction false} StaysWithoutObjects(engine: D.Engine, commands: seq<Command>, table: string, db: D.Db)
    requires WithoutObjects(db, table) && forall k :: 0 <= k < |commands| ==> !commands[k].Replay?
    ensures var after := D.ExecAll(engine, commands, db); after.Some? ==> WithoutObjects(after.value, table)
  {
    if commands != [] && D.Exec(engine, commands[0], db).Some? {
      StaysWithoutObjects(engine, commands[1..], table, D.Exec(engine, commands[0], db).value);
    }
  }

  lemma DroppedHasNone(engine: D.Engine, commands: seq<Command>, table: string, db: D.Db)
    requires commands != [] && commands[0] == DropObjects(table)
    requires forall k :: 0 <= k < |commands| ==> !commands[k].Replay?
    ensures var after := D.ExecAll(engine, commands, db); after.Some? ==> WithoutObjects(after.value, table)
  {
    if table in db {
      var t := db[table];
      StaysWithoutObjects(engine, commands[1..], table, db[table := t.(objects := [])]);
    }
  }

  lemma DroppedAt(engine: D.Engine, commands: seq<Command>, k: nat, db: D.Db)
    requires k < |commands| && !commands[k].Replay? && DroppedBefore(commands, k)
    ensures var before := D.ExecAll(engine, commands[..k], db);
            before.Some? ==> WithoutObjects(before.value, commands[k].table)
  {
    var j :| 0 <= j < k && commands[j] == DropObjects(commands[k].table)
             && forall m :: j < m < k ==> !commands[m].Replay?;
    assert commands[..k] == commands[..j] + commands[j..k];
    D.ExecAppend(engine, commands[..j], commands[j..k], db);
    if D.ExecAll(engine, commands[..j], db).Some? {
      DroppedHasNone(engine, commands[j..k], commands[k].table, D.ExecAll(engine, commands[..j], db).value);
    }
  }

  /**
    For every script and every database, and whatever the statements that are passed through do: whenever the commands
    before one that changes a column were executed, its table has no live index or constraint.
    */
  lemma NoLiveObjects(engine: D.Engine, contents: string, k: nat, db: D.Db)
    requires ScriptCommands(contents).Some? && k < |ScriptCommands(contents).value|
    requires ChangesColumn(ScriptCommands(contents).value[k])
    ensures var commands := ScriptCommands(contents).value;
            var before := D.ExecAll(engine, commands[..k], db);
            before.Some? ==> WithoutObjects(before.value, commands[k].table)
  {
    DropComesFirst(contents, k);
    DroppedAt(engine, ScriptCommands(contents).value, k, db);
  }
}
