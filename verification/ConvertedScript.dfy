/**
  From the text of a creation script to the database after its conversion has been run. A reader splits the written
  file into paragraphs, recognises each command and executes it; `ConvertedScriptMigrates` states the outcome, and the
  lemmas after it what the outcome means for values, types, indexes and constraints.
  */
module ConvertedScript {
  import opened Wrappers
  import opened Text
  import opened UnicodeConversion
  import opened OutputFile
  import opened CreateScript
  import opened Migration
  import D = Database

  // --- recognising commands ------------------------------------------------------------------------

  /** Recognises the commands the converter writes; any other text is a statement passed through. */
  function ReadCommand(text: string): Command {
    ReadWords(text, Split(text, " "))
  }

  function ReadWords(text: string, w: seq<string>): Command {
    if |w| == 2 && w[0] == "hm_drop_table_objects" && IsQuoted(w[1], "'") then DropObjects(Unquoted(w[1], "'"))
    else if |w| == 7 && w[0] == "ALTER" && w[1] == "TABLE" && w[3] == "ALTER" && w[4] == "COLUMN" then
      AlterColumn(w[2], w[5], w[6])
    else if |w| == 6 && w[0] == "ALTER" && w[1] == "TABLE" && w[3] == "ADD" && w[5] == "ntext" then AddText(w[2], w[4])
    else if |w| == 6 && w[0] == "UPDATE" && w[2] == "SET" && w[4] == "=" then CopyColumn(w[1], w[3], w[5])
    else if |w| == 6 && w[0] == "ALTER" && w[1] == "TABLE" && w[3] == "DROP" && w[4] == "COLUMN" then
      DropColumn(w[2], w[5])
    else if |w| == 4 && w[0] == "sp_rename" && w[3] == "'COLUMN'" && IsQuoted(w[1], "',") && IsQuoted(w[2], "',") then
      var path := Split(Unquoted(w[1], "',"), ".");
      if |path| == 2 then RenameColumn(path[0], path[1], Unquoted(w[2], "',")) else Replay(text)
    else Replay(text)
  }

  predicate IsQuoted(s: string, closing: string) {
    StartsWith(s, "'") && EndsWith(s, closing) && |s| > |closing|
  }

  function Unquoted(s: string, closing: string): string
    requires IsQuoted(s, closing)
  {
    s[1..|s| - |closing|]
  }

  lemma QuotedName(name: string, closing: string)
    requires closing != ""
    ensures IsQuoted("'" + name + closing, closing) && Unquoted("'" + name + closing, closing) == name
  {
    var s := "'" + name + closing;
    assert s[|s| - |closing|..] == closing;
  }

  function ReadAll(paragraphs: seq<string>): seq<Command> {
    seq(|paragraphs|, i requires 0 <= i < |paragraphs| => ReadCommand(paragraphs[i]))
  }

  /** Runs a migration file: one command per paragraph, nothing after the last blank line. */
  function RunFile(engine: D.Engine, file: string, db: D.Db): Option<D.Db> {
    var paragraphs := Split(file, BLANK_LINE);
    D.ExecAll(engine, ReadAll(paragraphs[..|paragraphs| - 1]), db)
  }

  predicate Word(s: string) {
    ' ' !in s && '.' !in s
  }

  predicate Readable(c: Command) {
    match c
    case DropObjects(t) => Word(t)
    case AlterColumn(t, col, ty) => Word(t) && Word(col) && ' ' !in ty
    case AddText(t, col) => Word(t) && Word(col)
    case CopyColumn(t, target, source) => Word(t) && Word(target) && Word(source)
    case DropColumn(t, col) => Word(t) && Word(col)
    case RenameColumn(t, col, name) => Word(t) && Word(col) && Word(name)
    case Replay(text) => IsReplayed(text)
  }

  lemma ShownWords(c: Command)
    requires Readable(c) && !c.Replay?
    ensures Split(Show(c), " ") == Words(c)
  {
    ShowJoinsWords(c);
    NoBlanks(c);
    SplitBlanks(Words(c));
  }

  lemma NoBlanks(c: Command)
    requires Readable(c) && !c.Replay?
    ensures forall k :: 0 <= k < |Words(c)| ==> ' ' !in Words(c)[k]
  {
  }

  lemma SplitBlanks(words: seq<string>)
    requires words != [] && forall k :: 0 <= k < |words| ==> ' ' !in words[k]
    ensures Split(Join(words, " "), " ") == words
  {
    forall k | 0 <= k < |words| ensures Clean(words[k], " ") && Free(words[k], " ") {
      CleanIfApart(words[k], " ");
    }
    SplitInvertsJoin(words, " ");
  }

  lemma ReplayedFirstWord(text: string)
    requires IsReplayed(text)
    ensures Split(text, " ")[0] !in {"hm_drop_table_objects", "ALTER", "UPDATE", "sp_rename"}
  {
    JoinInvertsSplit(text, " ");
    var first := Split(text, " ")[0];
    assert StartsWith(text, first);
    assert text[0] in {'a', 'c'};
    assert first != "" ==> first[0] == text[0];
  }

  lemma RecogniseWords(c: Command, text: string)
    requires Readable(c) && !c.Replay?
    ensures ReadWords(text, Words(c)) == c
  {
    match c {
      case DropObjects(t) =>
        QuotedName(t, "'");
      case RenameColumn(t, col, name) =>
        RecogniseRename(t, col, name, text);
      case _ =>
    }
  }

  lemma RecogniseRename(t: string, col: string, name: string, text: string)
    requires Word(t) && Word(col)
    ensures ReadWords(text, Words(RenameColumn(t, col, name))) == RenameColumn(t, col, name)
  {
    var w := Words(RenameColumn(t, col, name));
    QuotedName(t + "." + col, "',");
    QuotedName(name, "',");
    assert w[1] == "'" + (t + "." + col) + "',";
    PathSplits(t, col);
  }

  lemma PathSplits(t: string, col: string)
    requires Word(t) && Word(col)
    ensures Split(t + "." + col, ".") == [t, col]
  {
    CleanIfApart(t, ".");
    CleanIfApart(col, ".");
    SplitHead(t, ".", col);
    SplitFree(col, ".");
  }

  /** Every command the converter writes is recognised as itself. */
  lemma ReadCommandInvertsShow(c: Command)
    requires Readable(c)
    ensures ReadCommand(Show(c)) == c
  {
    if c.Replay? {
      ReplayedFirstWord(c.text);
    } else {
      ShownWords(c);
      RecogniseWords(c, Show(c));
    }
  }

  // --- what the compiled commands look like --------------------------------------------------------

  lemma TmpName(name: string)
    requires IsName(name)
    ensures Word(name) && Word(name + TMP)
  {
    NameCharacters(name);
  }

  lemma LineReadable(table: string, line: Line)
    requires IsName(table) && WellFormedLine(line)
    ensures forall c :: c in CompileLine(table, line) ==> Readable(c)
  {
    TmpName(table);
    if line.Column? {
      TmpName(line.name);
    }
  }

  lemma {:induction false} LinesReadable(table: string, lines: seq<Line>)
    requires IsName(table) && forall k :: 0 <= k < |lines| ==> WellFormedLine(lines[k])
    ensures forall c :: c in CompileLines(table, lines) ==> Readable(c)
  {
    if lines != [] {
      LinesReadable(table, lines[..|lines| - 1]);
      LineReadable(table, lines[|lines| - 1]);
    }
  }

  lemma TableReadable(name: string, lines: seq<Line>)
    requires IsName(name) && forall k :: 0 <= k < |lines| ==> WellFormedLine(lines[k])
    ensures forall c :: c in [DropObjects(name)] + CompileLines(name, lines) ==> Readable(c)
  {
    TmpName(name);
    LinesReadable(name, lines);
  }

  lemma ReplayReadable(s: Statement)
    requires IsKept(s)
    ensures Readable(Replay(Print(s)))
  {
    if s.CreateIndex? { IndexIsReplayed(s); } else { ConstraintIsReplayed(s); }
  }

  lemma StatementReadable(s: Statement)
    requires WellFormed(s)
    ensures forall c :: c in Compile(s) ==> Readable(c)
  {
    if s.CreateTable? {
      TableReadable(s.name, s.lines);
    } else if IsKept(s) {
      ReplayReadable(s);
      assert Compile(s) == [Replay(Print(s))];
    } else {
      assert Compile(s) == [];
    }
  }

  lemma {:induction false} ScriptReadable(script: seq<Statement>)
    requires forall k :: 0 <= k < |script| ==> WellFormed(script[k])
    ensures forall c :: c in CompileScript(script) ==> Readable(c)
  {
    if script != [] {
      ScriptReadable(script[..|script| - 1]);
      StatementReadable(script[|script| - 1]);
    }
  }

  lemma ReadAllInvertsShowAll(cs: seq<Command>)
    requires forall c :: c in cs ==> Readable(c)
    ensures ReadAll(ShowAll(cs)) == cs
  {
    forall i | 0 <= i < |cs| ensures ReadAll(ShowAll(cs))[i] == cs[i] {
      assert cs[i] in cs;
      ReadCommandInvertsShow(cs[i]);
    }
  }

  /**
    Running the file that is written for a text, inside the layout or not, executes the emitted commands, if it can be
    read back and the names in it hold no blank and no dot.
    */
  lemma FileRunsCommands(engine: D.Engine, contents: string, db: D.Db)
    requires ScriptCommands(contents).Some? && IsClear(contents) && !KeepsFinalLineEnd(contents)
    requires forall c :: c in ScriptCommands(contents).value ==> Readable(c)
    ensures RunFile(engine, FileText(ShowAll(ScriptCommands(contents).value)), db)
         == D.ExecAll(engine, ScriptCommands(contents).value, db)
  {
    var shown := ShowAll(ScriptCommands(contents).value);
    FileReadsBack(contents);
    assert (shown + [""])[..|shown|] == shown;
    ReadAllInvertsShowAll(ScriptCommands(contents).value);
  }

  /** The commands read from the written file are the compiled commands. */
  lemma FileHoldsCommands(contents: string, script: seq<Statement>)
    requires WellFormedScript(script) && IsCasing(contents, PrintScript(script)) && IsClear(contents)
    ensures ScriptCommands(contents) == Some(CompileScript(script))
    ensures Split(FileText(ShowAll(CompileScript(script))), BLANK_LINE) == ShowAll(CompileScript(script)) + [""]
    ensures forall c :: c in CompileScript(script) ==> Readable(c)
    ensures !KeepsFinalLineEnd(contents)
  {
    ConvertsPrintedScript(contents, script);
    ScriptReadable(script);
    FileReadsBack(contents);
  }

  /**
    The main result. For every creation script in the layout, whatever the case of its letters, and every database,
    running the written file succeeds exactly when the script is ready for the database, and then migrates it.
    */
  lemma ConvertedScriptMigrates(engine: D.Engine, contents: string, script: seq<Statement>, db: D.Db)
    requires WellFormedScript(script) && IsCasing(contents, PrintScript(script)) && IsClear(contents)
    ensures ScriptCommands(contents).Some?
    ensures RunFile(engine, FileText(ShowAll(ScriptCommands(contents).value)), db)
         == if Ready(engine, script, db) then Some(Migrated(script, db)) else None
  {
    FileHoldsCommands(contents, script);
    FileRunsCommands(engine, contents, db);
    MigrationResult(engine, script, db);
  }

  /** The text is this script in the layout, and the file written for it takes one database to the other. */
  ghost predicate Converts(engine: D.Engine, contents: string, script: seq<Statement>, db: D.Db, after: D.Db) {
    && WellFormedScript(script) && IsCasing(contents, PrintScript(script)) && IsClear(contents)
    && ScriptCommands(contents).Some?
    && RunFile(engine, FileText(ShowAll(ScriptCommands(contents).value)), db) == Some(after)
  }

  lemma ConvertsToMigrated(engine: D.Engine, contents: string, script: seq<Statement>, db: D.Db, after: D.Db)
    requires Converts(engine, contents, script, db, after)
    ensures Ready(engine, script, db) && after == Migrated(script, db)
  {
    ConvertedScriptMigrates(engine, contents, script, db);
  }

  // --- what the outcome means ----------------------------------------------------------------------

  /** Same tables, columns, rows and values. */
  ghost predicate SameData(a: D.Db, b: D.Db) {
    a.Keys == b.Keys &&
    forall t :: t in a ==>
      && a[t].rowCount == b[t].rowCount
      && a[t].columns.Keys == b[t].columns.Keys
      && forall c :: c in a[t].columns ==> a[t].columns[c].values == b[t].columns[c].values
  }

  predicate Mentions(s: Statement, table: string) {
    match s
    case CreateTable(name, _, _) => name == table
    case CreateIndex(_, _, t, _) => t == table
    case AddConstraint(t, _) => t == table
    case Other(_) => false
  }

  lemma {:induction false} UnmentionedTable(script: seq<Statement>, name: string, t: D.Table)
    requires forall k :: 0 <= k < |script| ==> !Mentions(script[k], name)
    ensures MigratedTable(script, name, t) == t
  {
    if script == [] {
    } else {
      UnmentionedTable(script[..|script| - 1], name, t);
      OtherTables(script, name, t);
    }
  }

  /** A migration that succeeds changes no value, and leaves the tables that the script does not name as they were. */
  lemma MigrationKeepsData(engine: D.Engine, contents: string, script: seq<Statement>, db: D.Db, after: D.Db)
    requires Converts(engine, contents, script, db, after)
    ensures SameData(db, after)
    ensures forall t :: t in db && (forall k :: 0 <= k < |script| ==> !Mentions(script[k], t)) ==> after[t] == db[t]
  {
    ConvertsToMigrated(engine, contents, script, db, after);
    forall t | t in db && forall k :: 0 <= k < |script| ==> !Mentions(script[k], t) ensures after[t] == db[t] {
      UnmentionedTable(script, t, db[t]);
    }
  }

  predicate Creates(s: Statement, table: string) {
    s.CreateTable? && s.name == table
  }

  /** Some line of the statement gives the column of the table a new type. */
  ghost predicate Retypes(s: Statement, table: string, column: string) {
    Creates(s, table) && exists k :: 0 <= k < |s.lines| && LineType(s.lines[k], column).Some?
  }

  /** The k-th line of the i-th statement is the last that gives the column of the table a new type. */
  ghost predicate RetypesLast(script: seq<Statement>, i: nat, k: nat, table: string, column: string) {
    && i < |script| && Creates(script[i], table) && k < |script[i].lines|
    && LineType(script[i].lines[k], column).Some?
    && (forall j :: k < j < |script[i].lines| ==> LineType(script[i].lines[j], column).None?)
    && (forall j :: i < j < |script| ==> !Retypes(script[j], table, column))
  }

  /** In the database after the run, a column has the type that the last line converting it asks for. */
  lemma ColumnsGetScriptType(engine: D.Engine, contents: string, script: seq<Statement>, db: D.Db, after: D.Db,
                             i: nat, k: nat, table: string, column: string)
    requires Converts(engine, contents, script, db, after)
    ensures RetypesLast(script, i, k, table, column) ==>
              && table in after && column in after[table].columns
              && Some(after[table].columns[column].columnType) == LineType(script[i].lines[k], column)
  {
    if RetypesLast(script, i, k, table, column) {
      ConvertsToMigrated(engine, contents, script, db, after);
      assert StatementReady(engine, script[i], db);
      assert LineReady(engine, script[i].lines[k], db[table].columns);
      LastTypeWins(script, i, k, table, column, db[table].columns[column].columnType);
    }
  }

  /** Every other column has the type it had. */
  lemma OtherColumnsKeepType(engine: D.Engine, contents: string, script: seq<Statement>, db: D.Db, after: D.Db,
                             table: string, column: string)
    requires Converts(engine, contents, script, db, after)
    requires table in db && column in db[table].columns
    requires forall j :: 0 <= j < |script| ==> !Retypes(script[j], table, column)
    ensures table in after && after[table].columns.Keys == db[table].columns.Keys
    ensures after[table].columns[column].columnType == db[table].columns[column].columnType
  {
    ConvertsToMigrated(engine, contents, script, db, after);
    NoTypeKeeps(script, table, column, db[table].columns[column].columnType);
  }

  lemma {:induction false} NoTypeKeeps(script: seq<Statement>, table: string, column: string, original: string)
    requires forall j :: 0 <= j < |script| ==> !Retypes(script[j], table, column)
    ensures ScriptType(script, table, column, original) == original
  {
    if script != [] {
      NoTypeKeeps(script[..|script| - 1], table, column, original);
      KeepsType(script[|script| - 1], table, column, original);
    }
  }

  lemma KeepsType(s: Statement, table: string, column: string, original: string)
    requires !Retypes(s, table, column)
    ensures Creates(s, table) ==> LinesType(s.lines, column, original) == original
  {
    if Creates(s, table) {
      NoLineKeeps(s.lines, column, original);
    }
  }

  lemma {:induction false} NoLineKeeps(lines: seq<Line>, column: string, original: string)
    requires forall k :: 0 <= k < |lines| ==> LineType(lines[k], column).None?
    ensures LinesType(lines, column, original) == original
  {
    if lines != [] {
      NoLineKeeps(lines[..|lines| - 1], column, original);
    }
  }

  lemma {:induction false} LastTypeWins(
      script: seq<Statement>, i: nat, k: nat, table: string, column: string, original: string)
    requires RetypesLast(script, i, k, table, column)
    ensures Some(ScriptType(script, table, column, original)) == LineType(script[i].lines[k], column)
    decreases |script|
  {
    var n := |script| - 1;
    var before := ScriptType(script[..n], table, column, original);
    if i < n {
      LastTypeWins(script[..n], i, k, table, column, original);
      KeepsType(script[n], table, column, before);
    } else {
      LastLineWins(script[i].lines, k, column, before);
    }
  }

  lemma {:induction false} LastLineWins(lines: seq<Line>, k: nat, column: string, original: string)
    requires k < |lines| && LineType(lines[k], column).Some?
    requires forall j :: k < j < |lines| ==> LineType(lines[j], column).None?
    ensures Some(LinesType(lines, column, original)) == LineType(lines[k], column)
    decreases |lines|
  {
    if k < |lines| - 1 {
      LastLineWins(lines[..|lines| - 1], k, column, original);
    }
  }

  // --- indexes and constraints ---------------------------------------------------------------------

  predicate IsObjectOf(s: Statement, table: string) {
    (s.CreateIndex? || s.AddConstraint?) && s.table == table
  }

  /** The index and constraint statements the script itself has for a table. */
  function ScriptObjects(script: seq<Statement>, table: string): seq<string> {
    if script == [] then []
    else
      var s := script[|script| - 1];
      ScriptObjects(script[..|script| - 1], table) + if IsObjectOf(s, table) then [Print(s)] else []
  }

  /** No index of the table is of a kind the converter loses, and none comes before the table's creation. */
  ghost predicate AllRestorable(script: seq<Statement>, table: string) {
    forall k :: 0 <= k < |script| && IsObjectOf(script[k], table) ==>
      IsKept(script[k]) && forall j :: k < j < |script| ==> !Creates(script[j], table)
  }

  ghost predicate IsCreated(script: seq<Statement>, table: string) {
    exists k :: 0 <= k < |script| && Creates(script[k], table)
  }

  lemma CreatedEarlier(script: seq<Statement>, table: string)
    requires IsCreated(script, table) && !Creates(script[|script| - 1], table)
    ensures IsCreated(script[..|script| - 1], table)
  {
    var k :| 0 <= k < |script| && Creates(script[k], table);
    assert script[..|script| - 1][k] == script[k];
  }

  lemma {:induction false} NoMoreObjects(script: seq<Statement>, table: string, objects: seq<string>)
    requires IsCreated(script, table)
    ensures |ObjectsAfter(script, table, objects)| <= |ScriptObjects(script, table)|
  {
    if !Creates(script[|script| - 1], table) {
      CreatedEarlier(script, table);
      NoMoreObjects(script[..|script| - 1], table, objects);
    }
  }

  lemma {:induction false} NoObjects(script: seq<Statement>, table: string)
    ensures ScriptObjects(script, table) == [] <==> forall k :: 0 <= k < |script| ==> !IsObjectOf(script[k], table)
  {
    if script != [] {
      var n := |script| - 1;
      NoObjects(script[..n], table);
      assert forall k :: 0 <= k < n ==> script[..n][k] == script[k];
      if !(forall k :: 0 <= k < n ==> !IsObjectOf(script[..n][k], table)) {
        var k :| 0 <= k < n && IsObjectOf(script[..n][k], table);
        assert IsObjectOf(script[k], table);
      }
    }
  }

  lemma RestorableSnoc(script: seq<Statement>, table: string)
    requires script != []
    ensures var n := |script| - 1;
            AllRestorable(script, table) <==>
            && AllRestorable(script[..n], table)
            && (IsObjectOf(script[n], table) ==> IsKept(script[n]))
            && (Creates(script[n], table) ==> forall k :: 0 <= k < n ==> !IsObjectOf(script[k], table))
  {
    var n := |script| - 1;
    assert forall k :: 0 <= k < n ==> script[..n][k] == script[k];
    if AllRestorable(script, table) {
      forall k | 0 <= k < n && IsObjectOf(script[..n][k], table)
        ensures IsKept(script[..n][k]) && forall j :: k < j < n ==> !Creates(script[..n][j], table)
      {
        assert IsObjectOf(script[k], table);
      }
    } else {
      var k :| 0 <= k < |script| && IsObjectOf(script[k], table)
               && !(IsKept(script[k]) && forall j :: k < j < |script| ==> !Creates(script[j], table));
      if k < n && AllRestorable(script[..n], table) {
        assert IsObjectOf(script[..n][k], table);
        assert forall j :: k < j < n ==> !Creates(script[..n][j], table);
      }
    }
  }

  lemma {:induction false} ObjectsAfterRestored(script: seq<Statement>, table: string, objects: seq<string>)
    requires IsCreated(script, table)
    ensures ObjectsAfter(script, table, objects) == ScriptObjects(script, table) <==> AllRestorable(script, table)
  {
    var n := |script| - 1;
    RestorableSnoc(script, table);
    if Creates(script[n], table) {
      NoObjects(script[..n], table);
      assert forall k :: 0 <= k < n ==> script[..n][k] == script[k];
    } else {
      CreatedEarlier(script, table);
      ObjectsAfterRestored(script[..n], table, objects);
      NoMoreObjects(script[..n], table, objects);
      var before, wanted := ObjectsAfter(script[..n], table, objects), ScriptObjects(script[..n], table);
      if IsObjectOf(script[n], table) && IsKept(script[n]) {
        var x := [Print(script[n])];
        assert before + x == wanted + x ==> (before + x)[..|before|] == (wanted + x)[..|wanted|];
        assert (before + x)[..|before|] == before && (wanted + x)[..|wanted|] == wanted;
      }
    }
  }

  /**
    The migration drops every index and constraint of a created table and replays the script's. In the database after
    the run the table has all of the script's, in script order, exactly when each is of a kept kind and comes after the
    table's creation.
    */
  lemma ObjectsRestored(engine: D.Engine, contents: string, script: seq<Statement>, db: D.Db, after: D.Db,
                        table: string)
    requires Converts(engine, contents, script, db, after)
    ensures IsCreated(script, table) ==>
              && table in after
              && (after[table].objects == ScriptObjects(script, table) <==> AllRestorable(script, table))
  {
    if IsCreated(script, table) {
      ConvertsToMigrated(engine, contents, script, db, after);
      var k :| 0 <= k < |script| && Creates(script[k], table);
      assert StatementReady(engine, script[k], db);
      ObjectsAfterRestored(script, table, db[table].objects);
    }
  }

  // --- an index that is lost ------------------------------------------------------------------------

  lemma WordsClear(line: string)
    requires Free(line, DELETED)
    ensures LineClear(line)
  {
    TrimmedIsSuffix(line);
    var n :| 0 <= n <= |line| && TrimStart(line) == line[n..];
    assert line == line[..n] + TrimStart(line);
    FreeParts(line[..n], TrimStart(line), DELETED);
    SplitParts(TrimStart(line), " ", DELETED);
  }

  lemma PieceClearIfFree(piece: string)
    requires Free(piece, DELETED)
    ensures PieceClear(piece)
  {
    if IsTable(piece) && TableName(piece).Some? {
      TableNameFree(piece, DELETED);
      SplitParts(piece, NEW_LINE, DELETED);
      forall k | 0 <= k < |Split(piece, NEW_LINE)| ensures LineClear(Split(piece, NEW_LINE)[k]) {
        WordsClear(Split(piece, NEW_LINE)[k]);
      }
    }
  }

  /** A script without `---` is clear of it. */
  lemma ClearIfFree(contents: string)
    requires Free(ToLower(contents), DELETED)
    ensures IsClear(contents)
  {
    SplitParts(ToLower(contents), BLANK_LINE, DELETED);
    forall k | 0 <= k < |ScriptPieces(contents)| ensures PieceClear(ScriptPieces(contents)[k]) {
      PieceClearIfFree(ScriptPieces(contents)[k]);
    }
  }

  const LOST_INDEX: string := "create nonclustered index " + "i on t (c)"

  lemma LostIndexTable() returns (s: Statement)
    ensures s == CreateTable("t", " (", [Column(" ", "c", "int", ""), Plain(")")])
    ensures WellFormed(s) && Print(s) == "create table t (\r\n c int\r\n)"
  {
    var lines := [Column(" ", "c", "int", ""), Plain(")")];
    s := CreateTable("t", " (", lines);
    assert PrintLine(lines[0]) == " c int" && Header("t", " (") == "create table t (";
    assert [Header("t", " (")] + PrintLines(lines) == ["create table t (", " c int", ")"];
    JoinThree("create table t (", " c int", ")", NEW_LINE);
    LostTableIsWellFormed(s);
  }

  lemma LostTableIsWellFormed(s: Statement)
    requires s == CreateTable("t", " (", [Column(" ", "c", "int", ""), Plain(")")])
    ensures WellFormed(s)
  {
    assert WellFormedLine(s.lines[0]) && WellFormedLine(s.lines[1]);
  }

  lemma LostIndexStatement() returns (s: Statement)
    ensures s == CreateIndex(Nonclustered, "i", "t", "(c)")
    ensures WellFormed(s) && Print(s) == LOST_INDEX
  {
    s := CreateIndex(Nonclustered, "i", "t", "(c)");
    PrintedLostIndex(s);
    LostIndexIsOneLine(Print(s));
    OneLineIsParagraph(Print(s));
    assert IsName(s.name) && IsName(s.table);
  }

  lemma PrintedLostIndex(s: Statement)
    requires s == CreateIndex(Nonclustered, "i", "t", "(c)")
    ensures Print(s) == LOST_INDEX
  {
    assert "create " + KindWord(s.kind) + "index " == "create nonclustered index ";
    assert s.name + " on " + (s.table + " " + s.tail) == "i on t (c)";
  }

  lemma LostIndexIsOneLine(text: string)
    requires text == LOST_INDEX
    ensures CR !in text && LF !in text
  {
    var a, b := "create nonclustered index ", "i on t (c)";
    assert CR !in a && LF !in a;
    assert CR !in b && LF !in b;
  }

  lemma OneLineIsParagraph(text: string)
    requires CR !in text && LF !in text
    ensures IsParagraph(text)
  {
    FreeIfApart(text, BLANK_LINE);
    EndsWithLine(text);
  }

  lemma LostIndexScript() returns (script: seq<Statement>)
    ensures script == [CreateTable("t", " (", [Column(" ", "c", "int", ""), Plain(")")]),
                       CreateIndex(Nonclustered, "i", "t", "(c)")]
    ensures WellFormedScript(script)
    ensures PrintScript(script) == "create table t (\r\n c int\r\n)\r\n\r\n" + LOST_INDEX
  {
    var table := LostIndexTable();
    var index := LostIndexStatement();
    script := [table, index];
    TwoStatements(table, index);
  }

  lemma TwoStatements(a: Statement, b: Statement)
    ensures PrintScript([a, b]) == Print(a) + BLANK_LINE + Print(b)
  {
    assert PrintAll([a, b]) == [Print(a), Print(b)];
    JoinTwo(Print(a), Print(b), BLANK_LINE);
  }

  lemma LostTextIsPlain(contents: string)
    requires contents == "create table t (\r\n c int\r\n)\r\n\r\n" + LOST_INDEX
    ensures NoCapitals(contents) && '-' !in contents
  {
  }

  lemma LostIndexMigrates(engine: D.Engine, script: seq<Statement>, t: D.Table)
    requires script == [CreateTable("t", " (", [Column(" ", "c", "int", ""), Plain(")")]),
                        CreateIndex(Nonclustered, "i", "t", "(c)")]
    requires t.columns == map["c" := D.Column("int", [])]
    ensures Ready(engine, script, map["t" := t])
    ensures MigratedTable(script, "t", t) == t.(objects := [])
  {
    assert StatementReady(engine, script[0], map["t" := t]);
    assert !Retypes(script[0], "t", "c") && !Retypes(script[1], "t", "c");
    NoTypeKeeps(script, "t", "c", "int");
    assert script[..1] == [script[0]] && script[..1][..0] == [];
    assert ObjectsAfter(script[..1], "t", t.objects) == [];
  }

  lemma LostIndexRuns(engine: D.Engine, contents: string, script: seq<Statement>, t: D.Table) returns (after: D.Db)
    requires WellFormedScript(script) && contents == PrintScript(script) && NoCapitals(contents) && '-' !in contents
    requires Ready(engine, script, map["t" := t]) && MigratedTable(script, "t", t) == t.(objects := [])
    ensures ScriptCommands(contents).Some?
    ensures RunFile(engine, FileText(ShowAll(ScriptCommands(contents).value)), map["t" := t]) == Some(after)
    ensures after == map["t" := t.(objects := [])]
  {
    LowerKeeps(contents);
    FreeIfApart(contents, DELETED);
    ClearIfFree(contents);
    ConvertedScriptMigrates(engine, contents, script, map["t" := t]);
    after := Migrated(script, map["t" := t]);
  }

  /**
    A text and a database from which an index is lost: the table has the index that the text creates, the file written
    for the text runs, and the table has none afterwards.
    */
  lemma NonclusteredIndexIsLost(engine: D.Engine) returns (contents: string, db: D.Db, after: D.Db)
    ensures contents == "create table t (\r\n c int\r\n)\r\n\r\n" + LOST_INDEX
    ensures db == map["t" := D.Table(0, map["c" := D.Column("int", [])], [LOST_INDEX])]
    ensures ScriptCommands(contents).Some?
    ensures RunFile(engine, FileText(ShowAll(ScriptCommands(contents).value)), db) == Some(after)
    ensures after == db["t" := db["t"].(objects := [])]
  {
    var script := LostIndexScript();
    var t := D.Table(0, map["c" := D.Column("int", [])], [LOST_INDEX]);
    contents, db := PrintScript(script), map["t" := t];
    LostTextIsPlain(contents);
    LostIndexMigrates(engine, script, t);
    after := LostIndexRuns(engine, contents, script, t);
  }
}
