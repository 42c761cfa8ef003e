/**
  The converter that compiles a table-creation script into a migration script. `Parser` follows the original
  class statement by statement; the functions before it say what each of its methods computes, as commands
  rather than as text, and the lemmas after it say when the written file can be read back.
  */
module UnicodeConversion {
  import opened Wrappers
  import opened Text

  const CREATE_TABLE: string := "create table"
  const TMP: string := "_tmp"

  datatype Command =
    | DropObjects(table: string)
    | AlterColumn(table: string, column: string, columnType: string)
    | AddText(table: string, column: string)
    | CopyColumn(table: string, target: string, source: string)
    | DropColumn(table: string, column: string)
    | RenameColumn(table: string, column: string, newName: string)
    | Replay(text: string)

  /** The SQL text of a command. */
  function Show(c: Command): string {
    match c
    case DropObjects(t) => "hm_drop_table_objects '" + t + "'"
    case AlterColumn(t, col, ty) => "ALTER TABLE " + t + " ALTER COLUMN " + col + " " + ty
    case AddText(t, col) => "ALTER TABLE " + t + " ADD " + col + " ntext"
    case CopyColumn(t, target, source) => "UPDATE " + t + " SET " + target + " = " + source
    case DropColumn(t, col) => "ALTER TABLE " + t + " DROP COLUMN " + col
    case RenameColumn(t, col, name) => "sp_rename '" + t + "." + col + "', '" + name + "', 'COLUMN'"
    case Replay(text) => text
  }

  function ShowAll(cs: seq<Command>): seq<string> {
    seq(|cs|, i requires 0 <= i < |cs| => Show(cs[i]))
  }

  /** The table named by a `create table` command; none when the original's Substring call would throw. */
  function TableName(command: string): Option<string>
    requires StartsWith(command, CREATE_TABLE)
  {
    var start := |CREATE_TABLE| + 1;
    if start + 1 > |command| then None
    else
      var blank := IndexOf(command, " ", start + 1);
      var lineEnd := IndexOf(command, NEW_LINE, start + 1);
      var end := if blank < lineEnd then blank else lineEnd;
      if end < start then None else Some(command[start..end])
  }

  function TextColumn(table: string, column: string): seq<Command> {
    [AddText(table, column + TMP), CopyColumn(table, column + TMP, column),
     DropColumn(table, column), RenameColumn(table, column + TMP, column)]
  }

  /** What one column definition is compiled to. */
  function ColumnCommands(table: string, column: string, columnType: string): seq<Command> {
    if StartsWith(columnType, "nvarchar") then [AlterColumn(table, column, columnType)]
    else if StartsWith(columnType, "ntext") then TextColumn(table, column)
    else []
  }

  function LineCommands(table: string, line: string): seq<Command> {
    var trimmed := TrimStart(line);
    if StartsWith(trimmed, CREATE_TABLE) then [DropObjects(table)]
    else
      var words := Split(trimmed, " ");
      if |words| < 2 then [] else ColumnCommands(table, words[0], words[1])
  }

  function LinesCommands(table: string, lines: seq<string>): seq<Command> {
    if lines == [] then []
    else LinesCommands(table, lines[..|lines| - 1]) + LineCommands(table, lines[|lines| - 1])
  }

  predicate IsReplayed(piece: string) {
    && !StartsWith(piece, "if")
    && (|| StartsWith(piece, "create index")
        || StartsWith(piece, "create clustered index")
        || StartsWith(piece, "alter table"))
  }

  predicate IsTable(piece: string) {
    !StartsWith(piece, "if") && StartsWith(piece, CREATE_TABLE)
  }

  /** The commands that one piece of the script is compiled to; none when the original throws. */
  function PieceCommands(piece: string): Option<seq<Command>> {
    if IsTable(piece) then
      match TableName(piece)
      case None => None
      case Some(table) => Some(LinesCommands(table, Split(piece, NEW_LINE)))
    else if IsReplayed(piece) then Some([Replay(piece)])
    else Some([])
  }

  function PiecesCommands(pieces: seq<string>): Option<seq<Command>> {
    if pieces == [] then Some([])
    else
      match PiecesCommands(pieces[..|pieces| - 1])
      case None => None
      case Some(before) =>
        match PieceCommands(pieces[|pieces| - 1])
        case None => None
        case Some(last) => Some(before + last)
  }

  function ScriptPieces(contents: string): seq<string> {
    Split(ToLower(contents), BLANK_LINE)
  }

  function ScriptCommands(contents: string): Option<seq<Command>> {
    PiecesCommands(ScriptPieces(contents))
  }

  /** Every command followed by a blank line. */
  function Render(commands: seq<string>): string {
    Terminated(commands, BLANK_LINE)
  }

  function FileText(commands: seq<string>): string {
    Replace(Render(commands), "---", "")
  }

  function ConvertCharset(table: string): string {
    "ALTER TABLE " + table + " CONVERT TO CHARACTER SET utf8"
  }

  /** The MySQL commands collected beside the migration; the original never writes them. */
  function ConvertCharsets(table: string, lines: seq<string>): seq<string> {
    if lines == [] then []
    else
      ConvertCharsets(table, lines[..|lines| - 1]) + LineCharsets(table, lines[|lines| - 1])
  }

  function LineCharsets(table: string, line: string): seq<string> {
    if StartsWith(TrimStart(line), CREATE_TABLE) then [ConvertCharset(table)] else []
  }

  function PieceCharsets(piece: string): seq<string> {
    if IsTable(piece) && TableName(piece).Some?
    then ConvertCharsets(TableName(piece).value, Split(piece, NEW_LINE))
    else []
  }

  function PiecesCharsets(pieces: seq<string>): seq<string> {
    if pieces == [] then [] else PiecesCharsets(pieces[..|pieces| - 1]) + PieceCharsets(pieces[|pieces| - 1])
  }

  lemma ShowAllAppend(a: seq<Command>, b: seq<Command>)
    ensures ShowAll(a + b) == ShowAll(a) + ShowAll(b)
  {
  }

  lemma ShowTextColumn(t: string, col: string)
    ensures ShowAll(TextColumn(t, col)) ==
            ["ALTER TABLE " + t + " ADD " + col + "_tmp ntext",
             "UPDATE " + t + " SET " + col + "_tmp = " + col,
             "ALTER TABLE " + t + " DROP COLUMN " + col,
             "sp_rename '" + t + "." + col + "_tmp', '" + col + "', 'COLUMN'"]
  {
    assert Show(AddText(t, col + TMP)) == "ALTER TABLE " + t + " ADD " + col + "_tmp ntext";
    assert Show(CopyColumn(t, col + TMP, col)) == "UPDATE " + t + " SET " + col + "_tmp = " + col;
    assert Show(RenameColumn(t, col + TMP, col))
        == "sp_rename '" + t + "." + col + "_tmp', '" + col + "', 'COLUMN'";
  }

  lemma OneMoreLine(out: seq<string>, table: string, lines: seq<string>, i: nat)
    requires i < |lines|
    ensures out + ShowAll(LinesCommands(table, lines[..i + 1]))
         == out + ShowAll(LinesCommands(table, lines[..i])) + ShowAll(LineCommands(table, lines[i]))
    ensures ConvertCharsets(table, lines[..i + 1])
         == ConvertCharsets(table, lines[..i]) + LineCharsets(table, lines[i])
  {
    assert lines[..i + 1][..i] == lines[..i];
    ShowAllAppend(LinesCommands(table, lines[..i]), LineCommands(table, lines[i]));
  }

  lemma NoLineEndAt(command: string, i: nat)
    requires StartsWith(command, CREATE_TABLE) && i < |CREATE_TABLE|
    ensures !OccursAt(command, NEW_LINE, i)
  {
    assert command[i] == CREATE_TABLE[i];
    if OccursAt(command, NEW_LINE, i) {
      OccursAtChars(command, NEW_LINE, i);
    }
  }

  lemma HeaderComesFirst(command: string)
    requires StartsWith(command, CREATE_TABLE)
    ensures StartsWith(TrimStart(Split(command, NEW_LINE)[0]), CREATE_TABLE)
  {
    var i := IndexOf(command, NEW_LINE, 0);
    if 0 <= i < |CREATE_TABLE| {
      NoLineEndAt(command, i);
    }
    var first := Split(command, NEW_LINE)[0];
    assert first == if i < 0 then command else command[..i];
    assert StartsWith(first, CREATE_TABLE);
    assert first[0] == 'c';
  }

  /** Every command of these lines is about this table, and none is passed through. */
  predicate OnlyAbout(commands: seq<Command>, table: string) {
    forall c :: c in commands ==> !c.Replay? && c.table == table
  }

  lemma {:induction false} LinesAreAbout(table: string, lines: seq<string>)
    requires lines != [] && StartsWith(TrimStart(lines[0]), CREATE_TABLE)
    ensures var commands := LinesCommands(table, lines);
            commands != [] && commands[0] == DropObjects(table) && OnlyAbout(commands, table)
  {
    var n := |lines| - 1;
    if n == 0 {
      assert LinesCommands(table, lines[..n]) == [];
    } else {
      LinesAreAbout(table, lines[..n]);
      assert OnlyAbout(LineCommands(table, lines[n]), table);
    }
  }

  /** A table definition drops the table's objects before anything else, and everything after is about that table. */
  lemma TableDropsFirst(piece: string)
    requires IsTable(piece) && TableName(piece).Some?
    ensures var table, commands := TableName(piece).value, PieceCommands(piece).value;
            commands != [] && commands[0] == DropObjects(table) && OnlyAbout(commands, table)
  {
    HeaderComesFirst(piece);
    LinesAreAbout(TableName(piece).value, Split(piece, NEW_LINE));
  }

  lemma {:induction false} ThrowsLater(pieces: seq<string>, n: nat)
    requires n <= |pieces| && PiecesCommands(pieces[..n]).None?
    ensures PiecesCommands(pieces).None?
    decreases |pieces| - n
  {
    if n == |pieces| {
      assert pieces[..n] == pieces;
    } else {
      assert pieces[..n + 1][..n] == pieces[..n];
      ThrowsLater(pieces, n + 1);
    }
  }

  lemma OneMorePiece(pieces: seq<string>, i: nat)
    requires i < |pieces| && PiecesCommands(pieces[..i]).Some?
    ensures PiecesCommands(pieces[..i + 1]).None? <==> PieceCommands(pieces[i]).None?
    ensures PieceCommands(pieces[i]).Some? ==>
              ShowAll(PiecesCommands(pieces[..i + 1]).value)
              == ShowAll(PiecesCommands(pieces[..i]).value) + ShowAll(PieceCommands(pieces[i]).value)
    ensures PiecesCharsets(pieces[..i + 1]) == PiecesCharsets(pieces[..i]) + PieceCharsets(pieces[i])
  {
    assert pieces[..i + 1][..i] == pieces[..i];
    if PieceCommands(pieces[i]).Some? {
      ShowAllAppend(PiecesCommands(pieces[..i]).value, PieceCommands(pieces[i]).value);
    }
  }

  class Parser {
    var outCommands: seq<string>
    var outCommandsMySQL: seq<string>

    constructor ()
      ensures outCommands == [] && outCommandsMySQL == []
    {
      outCommands, outCommandsMySQL := [], [];
    }

    /** Compiles a script. The result is the text of the output file; none when an exception leaves no file. */
    method Run(contents: string) returns (written: Option<string>)
      modifies this
      ensures match ScriptCommands(contents)
              case None => written == None
              case Some(commands) =>
                && outCommands == ShowAll(commands)
                && outCommandsMySQL == PiecesCharsets(ScriptPieces(contents))
                && written == Some(FileText(ShowAll(commands)))
    {
      outCommands, outCommandsMySQL := [], [];
      var threw := ExtractAll(ScriptPieces(contents));
      if threw {
        return None;
      }
      var text := OutputText();
      written := Some(Replace(text, "---", ""));
    }

    /** The loop over the paragraphs. */
    method ExtractAll(sqlCommands: seq<string>) returns (threw: bool)
      requires outCommands == [] && outCommandsMySQL == []
      modifies this
      ensures threw <==> PiecesCommands(sqlCommands).None?
      ensures !threw ==>
                && outCommands == ShowAll(PiecesCommands(sqlCommands).value)
                && outCommandsMySQL == PiecesCharsets(sqlCommands)
    {
      for i := 0 to |sqlCommands|
        invariant PiecesCommands(sqlCommands[..i]).Some?
        invariant outCommands == ShowAll(PiecesCommands(sqlCommands[..i]).value)
        invariant outCommandsMySQL == PiecesCharsets(sqlCommands[..i])
      {
        OneMorePiece(sqlCommands, i);
        threw := ExtractCommand(sqlCommands[i]);
        if threw {
          ThrowsLater(sqlCommands, i + 1);
          return;
        }
      }
      assert sqlCommands[..|sqlCommands|] == sqlCommands;
      threw := false;
    }

    method OutputText() returns (text: string)
      ensures text == Render(outCommands)
    {
      text := "";
      for i := 0 to |outCommands|
        invariant text == Render(outCommands[..i])
      {
        TerminatedOneMore(outCommands[..i], outCommands[i], BLANK_LINE);
        assert outCommands[..i + 1] == outCommands[..i] + [outCommands[i]];
        text := text + outCommands[i] + NEW_LINE + "";
        text := text + NEW_LINE;
      }
      assert outCommands[..|outCommands|] == outCommands;
    }

    method ExtractCommand(command: string) returns (threw: bool)
      modifies this
      ensures threw <==> PieceCommands(command).None?
      ensures outCommands == old(outCommands) + if threw then [] else ShowAll(PieceCommands(command).value)
      ensures outCommandsMySQL == old(outCommandsMySQL) + if threw then [] else PieceCharsets(command)
    {
      threw := false;
      if StartsWith(command, "if") {
        return;
      }
      if StartsWith(command, CREATE_TABLE) {
        threw := ParseCreateTableCommand(command);
        return;
      }
      if StartsWith(command, "create index") || StartsWith(command, "create clustered index")
         || StartsWith(command, "alter table") {
        outCommands := outCommands + [command];
      }
    }

    method ParseCreateTableCommand(command: string) returns (threw: bool)
      requires StartsWith(command, CREATE_TABLE)
      modifies this
      ensures threw <==> TableName(command).None?
      ensures threw ==> outCommands == old(outCommands) && outCommandsMySQL == old(outCommandsMySQL)
      ensures !threw ==>
                var table, lines := TableName(command).value, Split(command, NEW_LINE);
                && outCommands == old(outCommands) + ShowAll(LinesCommands(table, lines))
                && outCommandsMySQL == old(outCommandsMySQL) + ConvertCharsets(table, lines)
    {
      var lines := Split(command, NEW_LINE);
      HeaderComesFirst(command);
      var tableName := "";
      for i := 0 to |lines|
        invariant i > 0 ==> TableName(command) == Some(tableName)
        invariant outCommands == old(outCommands) + ShowAll(LinesCommands(tableName, lines[..i]))
        invariant outCommandsMySQL == old(outCommandsMySQL) + ConvertCharsets(tableName, lines[..i])
      {
        threw, tableName := ParseLine(command, tableName, lines[i]);
        if threw {
          return;
        }
        assert i == 0 ==> lines[..i] == [];
        OneMoreLine(old(outCommands), tableName, lines, i);
      }
      assert lines[..|lines|] == lines;
      threw := false;
    }

    /** The body of the original's loop; `tableName` carries over from one line to the next. */
    method ParseLine(command: string, currentName: string, line: string) returns (threw: bool, tableName: string)
      requires StartsWith(command, CREATE_TABLE)
      requires StartsWith(TrimStart(line), CREATE_TABLE) || TableName(command) == Some(currentName)
      modifies this
      ensures threw <==> TableName(command).None?
      ensures threw ==> outCommands == old(outCommands) && outCommandsMySQL == old(outCommandsMySQL)
      ensures !threw ==>
                && TableName(command) == Some(tableName)
                && outCommands == old(outCommands) + ShowAll(LineCommands(tableName, line))
                && outCommandsMySQL == old(outCommandsMySQL) + LineCharsets(tableName, line)
    {
      threw, tableName := false, currentName;
      var trimmedLine := TrimStart(line);
      if StartsWith(trimmedLine, CREATE_TABLE) {
        var name := ReadTableName(command);
        if name.None? {
          threw := true;
          return;
        }
        tableName := name.value;
        StartTable(tableName);
        return;
      }
      var columnProperties := Split(trimmedLine, " ");
      if |columnProperties| < 2 {
        return;
      }
      ConvertColumn(tableName, columnProperties[0], columnProperties[1]);
    }

    method StartTable(tableName: string)
      modifies this
      ensures outCommands == old(outCommands) + ShowAll([DropObjects(tableName)])
      ensures outCommandsMySQL == old(outCommandsMySQL) + [ConvertCharset(tableName)]
    {
      outCommands := outCommands + ["hm_drop_table_objects '" + tableName + "'"];
      outCommandsMySQL := outCommandsMySQL + ["ALTER TABLE " + tableName + " CONVERT TO CHARACTER SET utf8"];
    }

    /** The name after `create table`, up to the first blank or line end; none when Substring would throw. */
    static method ReadTableName(command: string) returns (name: Option<string>)
      requires StartsWith(command, CREATE_TABLE)
      ensures name == TableName(command)
    {
      assert OccursAt(command, CREATE_TABLE, 0);
      var tableNameStart := IndexOf(command, CREATE_TABLE, 0) + |CREATE_TABLE| + 1;
      if tableNameStart + 1 > |command| {
        return None;
      }
      var tableNameEnd1 := IndexOf(command, " ", tableNameStart + 1);
      var tableNameEnd2 := IndexOf(command, NEW_LINE, tableNameStart + 1);
      var tableNameEnd := if tableNameEnd1 < tableNameEnd2 then tableNameEnd1 else tableNameEnd2;
      var tableNameLen := tableNameEnd - tableNameStart;
      if tableNameLen < 0 {
        return None;
      }
      name := Some(command[tableNameStart..tableNameStart + tableNameLen]);
    }

    method ConvertColumn(tableName: string, columnName: string, columnType: string)
      modifies this`outCommands
      ensures outCommands == old(outCommands) + ShowAll(ColumnCommands(tableName, columnName, columnType))
    {
      if StartsWith(columnType, "nvarchar") {
        var alterCommand := "ALTER TABLE " + tableName + " ALTER COLUMN " + columnName + " " + columnType;
        outCommands := outCommands + [alterCommand];
        return;
      }

      if StartsWith(columnType, "ntext") {
        var c1 := "ALTER TABLE " + tableName + " ADD " + columnName + "_tmp ntext";
        var c2 := "UPDATE " + tableName + " SET " + columnName + "_tmp = " + columnName;
        var c3 := "ALTER TABLE " + tableName + " DROP COLUMN " + columnName;
        var c4 := "sp_rename '" + tableName + "." + columnName + "_tmp', '" + columnName + "', 'COLUMN'";
        ShowTextColumn(tableName, columnName);
        outCommands := outCommands + [c1];
        outCommands := outCommands + [c2];
        outCommands := outCommands + [c3];
        outCommands := outCommands + [c4];
      }
    }
  }
}
