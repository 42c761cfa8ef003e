/**
  What the migration of any text does to columns and values, inside the layout of `CreateScript` or not. The generated
  commands lose nothing; the statements that are passed through decide. `ColumnsAfter` gives the outcome for every text
  whose passed-through statements are read, `DataIsKept` the exact condition under which nothing is lost, and
  `InterruptedKeepsData` what stands in the database wherever the migration stops.
  */
module DataKept {
  import opened Wrappers
  import opened Text
  import opened UnicodeConversion
  import opened OutputFile
  import opened StatementEffect
  import opened Migration
  import D = Database

  /** What the passed-through paragraphs do to a column; `Added` holds the paragraph that added it. */
  datatype Fate = Untouched | Added(text: string) | Dropped

  function PieceFate(piece: string, table: string, column: string): Fate {
    if !IsReplayed(piece) then Untouched
    else
      match EffectOf(piece)
      case AddsColumn(t, c, _) => if t == table && c == column then Added(piece) else Untouched
      case DropsColumn(t, c) => if t == table && c == column then Dropped else Untouched
      case _ => Untouched
  }

  /** The last paragraph that adds or drops the column decides. */
  function FateOf(pieces: seq<string>, table: string, column: string): Fate {
    if pieces == [] then Untouched
    else
      var last := PieceFate(pieces[|pieces| - 1], table, column);
      if last.Untouched? then FateOf(pieces[..|pieces| - 1], table, column) else last
  }

  /** Every passed-through paragraph is of a kind whose effect is known. */
  predicate AllRead(pieces: seq<string>) {
    forall k :: 0 <= k < |pieces| && IsReplayed(pieces[k]) ==> !EffectOf(pieces[k]).Unread?
  }

  /** A column of the second table is what its fate says, seen from the first. */
  ghost predicate Meets(engine: D.Engine, fate: Fate, a: D.Table, b: D.Table, column: string) {
    match fate
    case Untouched =>
      && (column in b.columns <==> column in a.columns)
      && (column in a.columns ==> b.columns[column].values == a.columns[column].values)
    case Added(text) =>
      column in b.columns && b.columns[column].values == D.Filled(a.rowCount, engine.initial(text))
    case Dropped => column !in b.columns
  }

  /** Only a column that is not there can be added, and only one that is there dropped. */
  ghost predicate MayMeet(fate: Fate, a: D.Table, column: string) {
    match fate
    case Untouched => true
    case Added(_) => column !in a.columns
    case Dropped => column in a.columns
  }

  ghost predicate SameTables(a: D.Db, b: D.Db) {
    a.Keys == b.Keys && forall t :: t in a ==> b[t].rowCount == a[t].rowCount
  }

  // --- one table definition -------------------------------------------------------------------------

  /** The same columns with the same values. */
  ghost predicate SameValues(a: D.Table, b: D.Table) {
    && b.rowCount == a.rowCount && a.columns.Keys == b.columns.Keys
    && forall c :: c in a.columns ==> b.columns[c].values == a.columns[c].values
  }

  lemma LineKeeps(engine: D.Engine, table: string, line: string, t: D.Table)
    ensures var after := D.ExecAllOn(engine, LineCommands(table, line), t); after.Some? ==> SameValues(t, after.value)
  {
    var cs := LineCommands(table, line);
    if cs != [] && !cs[0].AddText? {
      assert cs[1..] == [];
    } else if cs != [] {
      TextColumnMigrates(engine, table, cs[3].newName, t);
    }
  }

  lemma {:induction false} LinesKeep(engine: D.Engine, table: string, lines: seq<string>, t: D.Table)
    ensures var after := D.ExecAllOn(engine, LinesCommands(table, lines), t);
            after.Some? ==> SameValues(t, after.value)
  {
    if lines != [] {
      var n := |lines| - 1;
      var before := D.ExecAllOn(engine, LinesCommands(table, lines[..n]), t);
      LinesKeep(engine, table, lines[..n], t);
      D.ExecOnAppend(engine, LinesCommands(table, lines[..n]), LineCommands(table, lines[n]), t);
      if before.Some? {
        LineKeeps(engine, table, lines[n], before.value);
      }
    }
  }

  lemma TableCommandsAbout(piece: string)
    requires IsTable(piece) && TableName(piece).Some?
    ensures var commands := PieceCommands(piece).value;
            commands != [] && forall k :: 0 <= k < |commands| ==> D.TableOf(commands[k]) == TableName(piece)
  {
    var commands := PieceCommands(piece).value;
    TableDropsFirst(piece);
    forall k | 0 <= k < |commands| ensures D.TableOf(commands[k]) == TableName(piece) {
      assert commands[k] in commands;
    }
  }

  ghost predicate AllSameValues(a: D.Db, b: D.Db) {
    a.Keys == b.Keys && forall t :: t in a ==> SameValues(a[t], b[t])
  }

  lemma TableKeeps(engine: D.Engine, piece: string, db: D.Db)
    requires IsTable(piece) && TableName(piece).Some?
    ensures var after := D.ExecAll(engine, PieceCommands(piece).value, db);
            after.Some? ==> AllSameValues(db, after.value)
  {
    var table := TableName(piece).value;
    TableCommandsAbout(piece);
    D.ExecOneTable(engine, PieceCommands(piece).value, table, db);
    if table in db {
      LinesKeep(engine, table, Split(piece, NEW_LINE), db[table]);
    }
  }

  // --- one paragraph --------------------------------------------------------------------------------

  /** What a step does to every column. */
  ghost predicate IsStep(engine: D.Engine, piece: string, a: D.Db, b: D.Db) {
    && SameTables(a, b)
    && (forall t, c :: PieceFate(piece, t, c).Untouched? || t in a)
    && forall t, c :: t in a ==>
         Meets(engine, PieceFate(piece, t, c), a[t], b[t], c) && MayMeet(PieceFate(piece, t, c), a[t], c)
  }

  lemma NoStep(engine: D.Engine, piece: string, a: D.Db, b: D.Db)
    requires AllSameValues(a, b) && forall t, c :: PieceFate(piece, t, c).Untouched?
    ensures IsStep(engine, piece, a, b)
  {
  }

  lemma ReplayIsStep(engine: D.Engine, text: string, db: D.Db)
    requires IsReplayed(text) && !EffectOf(text).Unread?
    ensures var after := D.ExecAll(engine, [Replay(text)], db); after.Some? ==> IsStep(engine, text, db, after.value)
  {
    D.ExecReplay(engine, text, db);
    var effect := EffectOf(text);
    if D.Exec(engine, Replay(text), db).Some? {
      var after := D.Exec(engine, Replay(text), db).value;
      assert after == db[effect.table := D.ReplayOn(engine, text, db[effect.table]).value];
      forall t, c | t in db
        ensures Meets(engine, PieceFate(text, t, c), db[t], after[t], c) && MayMeet(PieceFate(text, t, c), db[t], c)
      {
        ColumnMeets(engine, text, t, c, db[t], after[t]);
      }
    }
  }

  lemma ColumnMeets(engine: D.Engine, text: string, table: string, column: string, a: D.Table, b: D.Table)
    requires IsReplayed(text) && !EffectOf(text).Unread?
    requires if EffectOf(text).table == table then D.ReplayOn(engine, text, a) == Some(b) else a == b
    ensures Meets(engine, PieceFate(text, table, column), a, b, column)
    ensures MayMeet(PieceFate(text, table, column), a, column) && b.rowCount == a.rowCount
  {
  }

  lemma PieceIsStep(engine: D.Engine, piece: string, db: D.Db)
    requires PieceCommands(piece).Some? && (IsReplayed(piece) ==> !EffectOf(piece).Unread?)
    ensures var after := D.ExecAll(engine, PieceCommands(piece).value, db);
            after.Some? ==> IsStep(engine, piece, db, after.value)
  {
    if IsReplayed(piece) {
      ReplayedIsNotTable(piece);
      ReplayIsStep(engine, piece, db);
    } else if D.ExecAll(engine, PieceCommands(piece).value, db).Some? {
      if IsTable(piece) {
        TableKeeps(engine, piece, db);
      }
      NoStep(engine, piece, db, D.ExecAll(engine, PieceCommands(piece).value, db).value);
    }
  }

  // --- every text -----------------------------------------------------------------------------------

  ghost predicate IsOutcome(engine: D.Engine, pieces: seq<string>, a: D.Db, b: D.Db) {
    && SameTables(a, b)
    && (forall t, c :: FateOf(pieces, t, c).Untouched? || t in a)
    && forall t, c :: t in a ==> Meets(engine, FateOf(pieces, t, c), a[t], b[t], c)
  }

  lemma StepAfter(engine: D.Engine, pieces: seq<string>, a: D.Db, b: D.Db, c: D.Db)
    requires pieces != [] && IsOutcome(engine, pieces[..|pieces| - 1], a, b)
    requires IsStep(engine, pieces[|pieces| - 1], b, c)
    ensures IsOutcome(engine, pieces, a, c)
  {
    var n := |pieces| - 1;
    forall t, col | t in a ensures Meets(engine, FateOf(pieces, t, col), a[t], c[t], col) {
      assert Meets(engine, FateOf(pieces[..n], t, col), a[t], b[t], col);
      assert Meets(engine, PieceFate(pieces[n], t, col), b[t], c[t], col);
    }
  }

  lemma AllReadSnoc(pieces: seq<string>)
    requires pieces != [] && AllRead(pieces)
    ensures AllRead(pieces[..|pieces| - 1])
    ensures IsReplayed(pieces[|pieces| - 1]) ==> !EffectOf(pieces[|pieces| - 1]).Unread?
  {
  }

  lemma {:induction false} PiecesOutcome(engine: D.Engine, pieces: seq<string>, db: D.Db)
    requires PiecesCommands(pieces).Some? && AllRead(pieces)
    ensures var after := D.ExecAll(engine, PiecesCommands(pieces).value, db);
            after.Some? ==> IsOutcome(engine, pieces, db, after.value)
  {
    if pieces != [] {
      var n := |pieces| - 1;
      var before := D.ExecAll(engine, PiecesCommands(pieces[..n]).value, db);
      AllReadSnoc(pieces);
      PiecesOutcome(engine, pieces[..n], db);
      D.ExecAppend(engine, PiecesCommands(pieces[..n]).value, PieceCommands(pieces[n]).value, db);
      if before.Some? {
        var after := D.ExecAll(engine, PieceCommands(pieces[n]).value, before.value);
        PieceIsStep(engine, pieces[n], before.value);
        if after.Some? {
          StepAfter(engine, pieces, db, before.value, after.value);
        }
      }
    }
  }

  /**
    For every text whose passed-through statements are read, and every database: when the emitted commands all succeed,
    there are the same tables with as many rows, and each column is there with its old values, or was added by a
    paragraph and is filled, or was dropped by one, as the last paragraph about it says.
    */
  lemma ColumnsAfter(engine: D.Engine, contents: string, db: D.Db, after: D.Db)
    requires ScriptCommands(contents).Some? && AllRead(ScriptPieces(contents))
    requires D.ExecAll(engine, ScriptCommands(contents).value, db) == Some(after)
    ensures IsOutcome(engine, ScriptPieces(contents), db, after)
  {
    PiecesOutcome(engine, ScriptPieces(contents), db);
  }

  // --- when nothing is lost -------------------------------------------------------------------------

  /** No table, row, column or value is lost. */
  ghost predicate KeepsAll(a: D.Db, b: D.Db) {
    SameTables(a, b) &&
    forall t, c :: t in a && c in a[t].columns ==>
      c in b[t].columns && b[t].columns[c].values == a[t].columns[c].values
  }

  ghost predicate SameColumns(a: D.Db, b: D.Db) {
    a.Keys == b.Keys && forall t :: t in a ==> a[t].columns.Keys == b[t].columns.Keys
  }

  /** A column that was there has not been touched, or was dropped and added again with the values it had. */
  predicate Survives(engine: D.Engine, fate: Fate, t: D.Table, column: string)
    requires column in t.columns
  {
    match fate
    case Untouched => true
    case Added(text) => t.columns[column].values == D.Filled(t.rowCount, engine.initial(text))
    case Dropped => false
  }

  predicate Adds(piece: string) {
    IsReplayed(piece) && EffectOf(piece).AddsColumn?
  }

  predicate Drops(piece: string) {
    IsReplayed(piece) && EffectOf(piece).DropsColumn?
  }

  predicate NoneAdds(pieces: seq<string>) {
    forall k :: 0 <= k < |pieces| ==> !Adds(pieces[k])
  }

  predicate NoneDrops(pieces: seq<string>) {
    forall k :: 0 <= k < |pieces| ==> !Drops(pieces[k])
  }

  /** No column is both added and dropped. */
  predicate NoneTwice(pieces: seq<string>) {
    forall j, k :: 0 <= j < |pieces| && 0 <= k < |pieces| && Adds(pieces[j]) && Drops(pieces[k]) ==>
      EffectOf(pieces[j]).table != EffectOf(pieces[k]).table || EffectOf(pieces[j]).column != EffectOf(pieces[k]).column
  }

  lemma {:induction false} FateHasPiece(pieces: seq<string>, table: string, column: string)
    ensures FateOf(pieces, table, column).Untouched? <==>
            forall k :: 0 <= k < |pieces| ==> PieceFate(pieces[k], table, column).Untouched?
    ensures var fate := FateOf(pieces, table, column);
            fate.Untouched? || exists k :: 0 <= k < |pieces| && PieceFate(pieces[k], table, column) == fate
  {
    if pieces != [] {
      var n := |pieces| - 1;
      FateHasPiece(pieces[..n], table, column);
      assert forall k :: 0 <= k < n ==> pieces[..n][k] == pieces[k];
      assert PieceFate(pieces[n], table, column).Untouched? ==>
          FateOf(pieces, table, column) == FateOf(pieces[..n], table, column);
    }
  }

  /** A column that is only dropped was there, and one that is only added was not. */
  lemma {:induction false} WasThere(engine: D.Engine, pieces: seq<string>, db: D.Db, table: string, column: string)
    requires PiecesCommands(pieces).Some? && AllRead(pieces)
    requires D.ExecAll(engine, PiecesCommands(pieces).value, db).Some? && table in db
    ensures FateOf(pieces, table, column).Dropped?
            && (forall k :: 0 <= k < |pieces| ==> !PieceFate(pieces[k], table, column).Added?)
            ==> column in db[table].columns
    ensures FateOf(pieces, table, column).Added?
            && (forall k :: 0 <= k < |pieces| ==> !PieceFate(pieces[k], table, column).Dropped?)
            ==> column !in db[table].columns
  {
    if pieces != [] {
      var n := |pieces| - 1;
      var cs := PiecesCommands(pieces[..n]).value;
      D.ExecAppend(engine, cs, PieceCommands(pieces[n]).value, db);
      var before := D.ExecAll(engine, cs, db).value;
      AllReadSnoc(pieces);
      WasThere(engine, pieces[..n], db, table, column);
      PiecesOutcome(engine, pieces[..n], db);
      PieceIsStep(engine, pieces[n], before);
      assert forall k :: 0 <= k < n ==> pieces[..n][k] == pieces[k];
      FateHasPiece(pieces[..n], table, column);
      assert Meets(engine, FateOf(pieces[..n], table, column), db[table], before[table], column);
      assert MayMeet(PieceFate(pieces[n], table, column), before[table], column);
    }
  }

  lemma OneFate(pieces: seq<string>, k: nat, table: string, column: string)
    requires NoneTwice(pieces) && k < |pieces| && !PieceFate(pieces[k], table, column).Untouched?
    ensures FateOf(pieces, table, column).Dropped? == PieceFate(pieces[k], table, column).Dropped?
    ensures !FateOf(pieces, table, column).Untouched?
    ensures forall j :: 0 <= j < |pieces| ==>
              PieceFate(pieces[j], table, column).Untouched?
              || PieceFate(pieces[j], table, column).Dropped? == PieceFate(pieces[k], table, column).Dropped?
  {
    FateHasPiece(pieces, table, column);
    forall j | 0 <= j < |pieces| && !PieceFate(pieces[j], table, column).Untouched?
      ensures PieceFate(pieces[j], table, column).Dropped? == PieceFate(pieces[k], table, column).Dropped?
    {
      assert Adds(pieces[j]) || Drops(pieces[j]);
      assert Adds(pieces[k]) || Drops(pieces[k]);
    }
  }

  /** A paragraph that adds or drops a column which no other undoes is seen in the outcome. */
  lemma PieceIsSeen(engine: D.Engine, pieces: seq<string>, db: D.Db, after: D.Db, k: nat)
    requires PiecesCommands(pieces).Some? && AllRead(pieces) && NoneTwice(pieces)
    requires D.ExecAll(engine, PiecesCommands(pieces).value, db) == Some(after)
    requires k < |pieces| && (Adds(pieces[k]) || Drops(pieces[k]))
    ensures var t, c := EffectOf(pieces[k]).table, EffectOf(pieces[k]).column;
            && t in db && t in after
            && (c in db[t].columns <==> Drops(pieces[k])) && (c in after[t].columns <==> Adds(pieces[k]))
  {
    var t, c := EffectOf(pieces[k]).table, EffectOf(pieces[k]).column;
    OneFate(pieces, k, t, c);
    PiecesOutcome(engine, pieces, db);
    WasThere(engine, pieces, db, t, c);
    assert Meets(engine, FateOf(pieces, t, c), db[t], after[t], c);
  }

  /** Without drops every fate is that of an untouched or a new column. */
  lemma NoDropKeeps(engine: D.Engine, pieces: seq<string>, db: D.Db, after: D.Db)
    requires PiecesCommands(pieces).Some? && AllRead(pieces) && NoneDrops(pieces)
    requires D.ExecAll(engine, PiecesCommands(pieces).value, db) == Some(after)
    ensures KeepsAll(db, after)
  {
    PiecesOutcome(engine, pieces, db);
    forall t, c | t in db && c in db[t].columns
      ensures c in after[t].columns && after[t].columns[c].values == db[t].columns[c].values
    {
      forall k | 0 <= k < |pieces| ensures !PieceFate(pieces[k], t, c).Dropped? { assert !Drops(pieces[k]); }
      FateHasPiece(pieces, t, c);
      WasThere(engine, pieces, db, t, c);
      assert Meets(engine, FateOf(pieces, t, c), db[t], after[t], c);
    }
  }

  lemma NothingTouched(engine: D.Engine, pieces: seq<string>, db: D.Db, after: D.Db)
    requires NoneDrops(pieces) && NoneAdds(pieces) && IsOutcome(engine, pieces, db, after)
    ensures SameColumns(db, after)
  {
    forall t | t in db ensures db[t].columns.Keys == after[t].columns.Keys {
      forall c ensures c in db[t].columns <==> c in after[t].columns {
        forall k | 0 <= k < |pieces| ensures PieceFate(pieces[k], t, c).Untouched? {
          assert !Adds(pieces[k]) && !Drops(pieces[k]);
        }
        FateHasPiece(pieces, t, c);
        assert Meets(engine, FateOf(pieces, t, c), db[t], after[t], c);
      }
    }
  }

  lemma KeptIfSurviving(engine: D.Engine, pieces: seq<string>, db: D.Db, after: D.Db)
    requires IsOutcome(engine, pieces, db, after)
    ensures KeepsAll(db, after) <==>
            forall t, c :: t in db && c in db[t].columns ==>
              Survives(engine, FateOf(pieces, t, c), db[t], c)
  {
    forall t, c | t in db && c in db[t].columns
      ensures Survives(engine, FateOf(pieces, t, c), db[t], c) <==>
              c in after[t].columns && after[t].columns[c].values == db[t].columns[c].values
    {
      assert Meets(engine, FateOf(pieces, t, c), db[t], after[t], c);
    }
  }

  /**
    The exact condition: nothing is lost if and only if every column that was there survives what the passed-through
    paragraphs do to it. If none of them adds a column that one of them drops, that is to say if and only if none drops
    a column; and the columns are then the same if and only if none adds or drops one.
    */
  lemma DataIsKept(engine: D.Engine, contents: string, db: D.Db, after: D.Db)
    requires ScriptCommands(contents).Some? && AllRead(ScriptPieces(contents))
    requires D.ExecAll(engine, ScriptCommands(contents).value, db) == Some(after)
    ensures KeepsAll(db, after) <==>
            forall t, c :: t in db && c in db[t].columns ==>
              Survives(engine, FateOf(ScriptPieces(contents), t, c), db[t], c)
    ensures NoneTwice(ScriptPieces(contents)) ==>
              && (KeepsAll(db, after) <==> NoneDrops(ScriptPieces(contents)))
              && (SameColumns(db, after) <==> NoneDrops(ScriptPieces(contents)) && NoneAdds(ScriptPieces(contents)))
  {
    var pieces := ScriptPieces(contents);
    ColumnsAfter(engine, contents, db, after);
    KeptIfSurviving(engine, pieces, db, after);
    if NoneDrops(pieces) {
      NoDropKeeps(engine, pieces, db, after);
    }
    if NoneTwice(pieces) {
      if k :| 0 <= k < |pieces| && (Drops(pieces[k]) || Adds(pieces[k])) {
        PieceIsSeen(engine, pieces, db, after, k);
      }
      if k :| 0 <= k < |pieces| && Drops(pieces[k]) {
        PieceIsSeen(engine, pieces, db, after, k);
      }
      if NoneDrops(pieces) && NoneAdds(pieces) {
        NothingTouched(engine, pieces, db, after);
      }
    }
  }

  // --- columns that are added and lost --------------------------------------------------------------

  function AddStatement(table: string, column: string, columnType: string): string {
    "alter table " + (table + " add " + (column + " " + columnType))
  }

  function DropStatement(table: string, column: string): string {
    "alter table " + (table + " drop column " + column)
  }

  lemma AddEffect(table: string, column: string, columnType: string)
    requires IsIdentifier(table) && IsIdentifier(column) && column !in NO_COLUMN
    requires IsType(columnType) && ' ' !in columnType
    ensures EffectOf(AddStatement(table, column, columnType)) == AddsColumn(table, column, columnType)
  {
    CleanIfApart(table, " ");
    CleanIfApart(column, " ");
    AlterAddSplit(table, column + " " + columnType);
    SplitHead(column, " ", columnType);
    FreeIfApart(columnType, " ");
    SplitFree(columnType, " ");
    var words := ["alter", "table", table, "add", column, columnType];
    assert Split(AddStatement(table, column, columnType), " ") == words;
    NonEmptyKeeps(words);
    AddWords(words, table, column, columnType);
  }

  lemma AddWords(words: seq<string>, table: string, column: string, columnType: string)
    requires words == ["alter", "table", table, "add", column, columnType]
    requires IsIdentifier(table) && IsIdentifier(column) && column !in NO_COLUMN && IsType(columnType)
    ensures WordsEffect(words) == AddsColumn(table, column, columnType)
  {
    assert words[3..] == ["add", column, columnType] && words[3..][3..] == [];
    assert words[3..][1..] == [column, columnType];
  }

  lemma DropEffect(table: string, column: string)
    requires IsIdentifier(table) && IsIdentifier(column)
    ensures EffectOf(DropStatement(table, column)) == DropsColumn(table, column)
  {
    DropSplit(table, column);
    var words := ["alter", "table", table, "drop", "column", column];
    NonEmptyKeeps(words);
    DropWords(words, table, column);
  }

  lemma DropSplit(table: string, column: string)
    requires ' ' !in table && ' ' !in column
    ensures Split(DropStatement(table, column), " ") == ["alter", "table", table, "drop", "column", column]
  {
    CleanIfApart(table, " ");
    FreeIfApart(column, " ");
    SplitFree(column, " ");
    Keywords();
    DropRegroups(table, column);
    FiveWords("alter", "table", table, "drop", "column", column);
  }

  lemma DropRegroups(table: string, column: string)
    ensures DropStatement(table, column)
         == "alter" + " " + ("table" + " " + (table + " " + ("drop" + " " + ("column" + " " + column))))
  {
    assert "alter table " == "alter" + " " + "table" + " ";
    assert " drop column " == " " + "drop" + " " + "column" + " ";
  }

  lemma DropWords(words: seq<string>, table: string, column: string)
    requires words == ["alter", "table", table, "drop", "column", column]
    requires IsIdentifier(table) && IsIdentifier(column)
    ensures WordsEffect(words) == DropsColumn(table, column)
  {
    assert words[3..] == ["drop", "column", column];
  }

  lemma IsPassedThrough(contents: string, rest: string)
    requires contents == "alter table " + rest && NoCapitals(contents) && CR !in rest
    ensures ScriptCommands(contents) == Some([Replay(contents)]) && ScriptPieces(contents) == [contents]
  {
    assert CR !in "alter table ";
    assert CR !in contents;
    FreeIfApart(contents, BLANK_LINE);
    assert contents[..11] == "alter table";
    PrefixAt(contents, "if", 0);
    OneParagraph(contents);
  }

  /** Every text that is one statement adding a column: it is passed through, and running it adds the column. */
  lemma ColumnIsAdded(engine: D.Engine, table: string, column: string, columnType: string, db: D.Db)
    requires IsIdentifier(table) && IsIdentifier(column) && column !in NO_COLUMN
    requires IsType(columnType) && ' ' !in columnType && CR !in columnType
    requires NoCapitals(AddStatement(table, column, columnType))
    requires table in db && column !in db[table].columns
    ensures var contents := AddStatement(table, column, columnType);
            var added := D.Column(columnType, D.Filled(db[table].rowCount, engine.initial(contents)));
            && ScriptCommands(contents) == Some([Replay(contents)])
            && D.ExecAll(engine, [Replay(contents)], db)
               == Some(db[table := db[table].(columns := db[table].columns[column := added])])
  {
    var contents := AddStatement(table, column, columnType);
    AddEffect(table, column, columnType);
    IdentifierCharacters(table);
    IdentifierCharacters(column);
    assert CR !in " add " && CR !in " ";
    IsPassedThrough(contents, table + " add " + (column + " " + columnType));
    D.ExecReplay(engine, contents, db);
    ReplayExecutes(engine, contents, db);
  }

  lemma IdentifierCharacters(s: string)
    requires IsIdentifier(s)
    ensures CR !in s && ' ' !in s
  {
    assert CR in IDENTIFIER_STOPS && ' ' in IDENTIFIER_STOPS;
  }

  lemma ReplayExecutes(engine: D.Engine, text: string, db: D.Db)
    requires !EffectOf(text).Unread? && EffectOf(text).table in db
    ensures var name := EffectOf(text).table;
            D.Exec(engine, Replay(text), db)
            == match D.ReplayOn(engine, text, db[name])
               case None => None
               case Some(t) => Some(db[name := t])
  {
  }

  /**
    Every text that is one statement dropping a column: it is passed through, and running it loses the column with its
    values, unless an index or constraint is about it.
    */
  lemma ColumnIsLost(engine: D.Engine, table: string, column: string, db: D.Db)
    requires IsIdentifier(table) && IsIdentifier(column)
    requires NoCapitals(DropStatement(table, column))
    requires table in db && column in db[table].columns && D.IsUnused(engine, db[table], column)
    ensures var contents := DropStatement(table, column);
            && ScriptCommands(contents) == Some([Replay(contents)]) && ScriptPieces(contents) == [contents]
            && D.ExecAll(engine, [Replay(contents)], db)
               == Some(db[table := db[table].(columns := db[table].columns - {column})])
  {
    var contents := DropStatement(table, column);
    DropEffect(table, column);
    IdentifierCharacters(table);
    IdentifierCharacters(column);
    assert CR !in " drop column ";
    IsPassedThrough(contents, table + " drop column " + column);
    D.ExecReplay(engine, contents, db);
    ReplayExecutes(engine, contents, db);
  }
}
