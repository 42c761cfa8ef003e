/**
  Table-creation scripts as syntax trees, the text they are written as, and the commands they should be converted to.
  `ConvertsPrintedScript` proves that the text-level parser computes `CompileScript` on every script in this layout,
  whatever the case of its letters.
  */
module CreateScript {
  import opened Wrappers
  import opened Text
  import opened UnicodeConversion
  import opened OutputFile
  import opened StatementEffect

  /** A line of a table definition: a column with the words after its type, or a line without inner blanks. */
  datatype Line =
    | Column(indent: string, name: string, columnType: string, tail: string)
    | Plain(text: string)

  datatype IndexKind = Unmarked | Clustered | Nonclustered | Unique

  datatype Statement =
    | CreateTable(name: string, headerTail: string, lines: seq<Line>)
    | CreateIndex(kind: IndexKind, name: string, table: string, tail: string)
    | AddConstraint(table: string, tail: string)
    | Other(text: string)

  function KindWord(kind: IndexKind): string {
    match kind
    case Unmarked => ""
    case Clustered => "clustered "
    case Nonclustered => "nonclustered "
    case Unique => "unique "
  }

  function PrintLine(line: Line): string {
    match line
    case Column(indent, name, columnType, tail) => indent + (name + " " + (columnType + tail))
    case Plain(text) => text
  }

  function PrintLines(lines: seq<Line>): seq<string> {
    seq(|lines|, i requires 0 <= i < |lines| => PrintLine(lines[i]))
  }

  function Header(name: string, headerTail: string): string {
    "create table " + name + headerTail
  }

  function Print(s: Statement): string {
    match s
    case CreateTable(name, headerTail, lines) => Join([Header(name, headerTail)] + PrintLines(lines), NEW_LINE)
    case CreateIndex(kind, name, table, tail) =>
      "create " + KindWord(kind) + "index " + (name + " on " + (table + " " + tail))
    case AddConstraint(table, tail) => "alter table " + (table + " add " + tail)
    case Other(text) => text
  }

  function PrintAll(script: seq<Statement>): seq<string> {
    seq(|script|, i requires 0 <= i < |script| => Print(script[i]))
  }

  function PrintScript(script: seq<Statement>): string
    requires script != []
  {
    Join(PrintAll(script), BLANK_LINE)
  }

  // --- layout --------------------------------------------------------------------------------------

  const NAME_STOPS: string := " \t\r\n'.,-"

  ghost predicate IsName(s: string) {
    s != "" && Apart(s, NAME_STOPS)
  }

  ghost predicate IsTail(s: string) {
    Apart(s, NEW_LINE) && (s == "" || s[0] == ' ')
  }

  ghost predicate WellFormedLine(line: Line) {
    match line
    case Column(indent, name, columnType, tail) =>
      && (forall i :: 0 <= i < |indent| ==> Blank(indent[i]))
      && IsName(name) && name != "create"
      && Apart(columnType, " \r\n")
      && IsTail(tail)
    case Plain(text) => text != "" && Apart(text, NEW_LINE) && ' ' !in TrimStart(text)
  }

  /** The paragraph holds no blank line and does not end in a line end. */
  ghost predicate IsParagraph(s: string) {
    Free(s, BLANK_LINE) && !EndsWith(s, NEW_LINE)
  }

  ghost predicate WellFormed(s: Statement) {
    match s
    case CreateTable(name, headerTail, lines) =>
      && IsName(name) && IsTail(headerTail) && lines != []
      && (forall k :: 0 <= k < |lines| ==> WellFormedLine(lines[k]))
      && (headerTail != "" || exists k :: 0 <= k < |lines| && lines[k].Column?)
    case CreateIndex(_, name, table, tail) =>
      && IsName(name) && IsName(table) && IsParagraph(Print(s))
      && (IsKept(s) ==> IsIdentifier(name) && IsIdentifier(table) && IsColumnList(Tokens(tail)))
    case AddConstraint(table, tail) => IsIdentifier(table) && IsConstraint(Tokens(tail)) && IsParagraph(Print(s))
    case Other(text) => !IsTable(text) && !IsReplayed(text) && IsParagraph(text)
  }

  ghost predicate WellFormedScript(script: seq<Statement>) {
    script != [] && forall k :: 0 <= k < |script| ==> WellFormed(script[k])
  }

  // --- the intended conversion ---------------------------------------------------------------------

  /** Only these index statements are passed through; the other kinds are lost. */
  predicate IsKept(s: Statement) {
    s.AddConstraint? || (s.CreateIndex? && s.kind in {Unmarked, Clustered})
  }

  function CompileLine(table: string, line: Line): seq<Command> {
    match line
    case Column(_, name, columnType, _) => ColumnCommands(table, name, columnType)
    case Plain(_) => []
  }

  function CompileLines(table: string, lines: seq<Line>): seq<Command> {
    if lines == [] then []
    else
      CompileLines(table, lines[..|lines| - 1]) + CompileLine(table, lines[|lines| - 1])
  }

  function Compile(s: Statement): seq<Command> {
    match s
    case CreateTable(name, _, lines) => [DropObjects(name)] + CompileLines(name, lines)
    case _ => if IsKept(s) then [Replay(Print(s))] else []
  }

  function CompileScript(script: seq<Statement>): seq<Command> {
    if script == [] then [] else CompileScript(script[..|script| - 1]) + Compile(script[|script| - 1])
  }

  // --- the parser computes it ----------------------------------------------------------------------

  lemma NoLineEnds(line: Line)
    requires WellFormedLine(line)
    ensures CR !in PrintLine(line) && LF !in PrintLine(line) && PrintLine(line) != ""
  {
  }

  lemma LineIsCompiled(table: string, line: Line)
    requires WellFormedLine(line)
    ensures LineCommands(table, PrintLine(line)) == CompileLine(table, line)
  {
    match line {
      case Column(indent, name, columnType, tail) =>
        var trimmed := name + " " + (columnType + tail);
        TrimStartIndent(indent, trimmed);
        FirstWordIsNotCreate(name, columnType + tail);
        CleanIfApart(name, " ");
        SplitHead(name, " ", columnType + tail);
        FirstWord(columnType, tail);
      case Plain(text) =>
        var trimmed := TrimStart(text);
        PrefixAt(trimmed, CREATE_TABLE, 6);
        FreeIfApart(trimmed, " ");
        SplitFree(trimmed, " ");
    }
  }

  lemma FirstWordIsNotCreate(name: string, rest: string)
    requires ' ' !in name && name != "create"
    ensures !StartsWith(name + " " + rest, CREATE_TABLE)
  {
    var text := name + " " + rest;
    if |name| < 6 {
      PrefixAt(text, CREATE_TABLE, |name|);
    } else {
      PrefixAt(text, CREATE_TABLE, 6);
      assert text[..6] == name[..6];
      assert CREATE_TABLE[..6] == "create";
    }
  }

  lemma FirstWord(word: string, tail: string)
    requires ' ' !in word && (tail == "" || tail[0] == ' ')
    ensures Split(word + tail, " ")[0] == word
  {
    CleanIfApart(word, " ");
    if tail == "" {
      assert word + tail == word;
      SplitFree(word, " ");
    } else {
      assert word + tail == word + " " + tail[1..];
      SplitHead(word, " ", tail[1..]);
    }
  }

  lemma PrintedLines(s: Statement)
    requires s.CreateTable? && WellFormed(s)
    ensures Split(Print(s), NEW_LINE) == [Header(s.name, s.headerTail)] + PrintLines(s.lines)
  {
    var pieces := [Header(s.name, s.headerTail)] + PrintLines(s.lines);
    HeaderIsLine(s.name, s.headerTail);
    LinesAreLines(s.lines);
    forall k | 0 <= k < |pieces| ensures Clean(pieces[k], NEW_LINE) && Free(pieces[k], NEW_LINE) {
      if k > 0 { assert pieces[k] == PrintLines(s.lines)[k - 1]; }
      CleanIfApart(pieces[k], NEW_LINE);
    }
    SplitInvertsJoin(pieces, NEW_LINE);
  }

  lemma NameCharacters(name: string)
    requires IsName(name)
    ensures ' ' !in name && CR !in name && LF !in name && '.' !in name && '-' !in name && !Blank(name[0])
  {
    assert ' ' in NAME_STOPS && '\t' in NAME_STOPS && CR in NAME_STOPS && LF in NAME_STOPS;
    assert '.' in NAME_STOPS && '-' in NAME_STOPS;
  }

  lemma NameHasNoEnd(text: string, start: nat, end: nat)
    requires start <= end <= |text| && IsName(text[start..end])
    ensures forall i :: start <= i < end ==> !OccursAt(text, " ", i) && !OccursAt(text, NEW_LINE, i)
  {
    var name := text[start..end];
    NameCharacters(name);
    forall i | start <= i < end ensures !OccursAt(text, " ", i) && !OccursAt(text, NEW_LINE, i) {
      assert text[i] == name[i - start];
      assert text[i] != ' ' && text[i] != CR;
      if OccursAt(text, " ", i) { OccursAtChars(text, " ", i); }
      if OccursAt(text, NEW_LINE, i) { OccursAtChars(text, NEW_LINE, i); }
    }
  }

  /** The name is read up to the first blank or line end after it. */
  lemma TableNameIs(text: string, name: string, rest: string)
    requires text == "create table " + (name + rest) && IsName(name)
    requires rest != "" && (rest[0] == ' ' || rest[0] == CR)
    requires (rest[0] == ' ' || StartsWith(rest, NEW_LINE))
    requires (exists i :: OccursAt(rest, " ", i)) && (exists i :: OccursAt(rest, NEW_LINE, i))
    ensures StartsWith(text, CREATE_TABLE) && TableName(text) == Some(name)
  {
    assert text[..12] == "create table";
    var start := |CREATE_TABLE| + 1;
    var end := start + |name|;
    assert text == text[..end] + rest && text[start..end] == name;
    NameHasNoEnd(text, start, end);
    var i :| OccursAt(rest, " ", i);
    OccursAtSuffix(text[..end], rest, " ", i + end);
    var j :| OccursAt(rest, NEW_LINE, j);
    OccursAtSuffix(text[..end], rest, NEW_LINE, j + end);
    OccursAtSuffix(text[..end], rest, " ", end);
    OccursAtSuffix(text[..end], rest, NEW_LINE, end);
    if rest[0] == ' ' {
      assert OccursAt(rest, " ", 0);
    } else {
      assert OccursAt(rest, NEW_LINE, 0);
    }
  }

  lemma PrintedTableName(s: Statement)
    requires s.CreateTable? && WellFormed(s)
    ensures StartsWith(Print(s), CREATE_TABLE) && TableName(Print(s)) == Some(s.name)
  {
    var body := Join(PrintLines(s.lines), NEW_LINE);
    var rest := s.headerTail + (NEW_LINE + body);
    assert ([Header(s.name, s.headerTail)] + PrintLines(s.lines))[1..] == PrintLines(s.lines);
    assert Print(s) == "create table " + (s.name + rest);
    assert rest[|s.headerTail|..|s.headerTail| + 2] == NEW_LINE;
    assert OccursAt(rest, NEW_LINE, |s.headerTail|);
    if s.headerTail != "" {
      assert OccursAt(rest, " ", 0);
    } else {
      BlankInBody(s);
      var i :| OccursAt(body, " ", i);
      assert rest == NEW_LINE + body;
      OccursAtSuffix(NEW_LINE, body, " ", i + 2);
      assert OccursAt(rest, " ", i + 2);
    }
    TableNameIs(Print(s), s.name, rest);
  }

  lemma BlankInBody(s: Statement)
    requires s.CreateTable? && WellFormed(s) && s.headerTail == ""
    ensures exists i :: OccursAt(Join(PrintLines(s.lines), NEW_LINE), " ", i)
  {
    var k :| 0 <= k < |s.lines| && s.lines[k].Column?;
    var line := s.lines[k];
    var p := PrintLine(line);
    assert p[|line.indent| + |line.name|..|line.indent| + |line.name| + 1] == " ";
    assert OccursAt(p, " ", |line.indent| + |line.name|);
    assert p == PrintLines(s.lines)[k];
    FreeJoin(PrintLines(s.lines), NEW_LINE, " ");
  }

  lemma HeaderIsCompiled(table: string, headerTail: string)
    ensures LineCommands(table, Header(table, headerTail)) == [DropObjects(table)]
  {
    var header := Header(table, headerTail);
    assert header[..12] == "create table";
    assert header[0] == 'c';
  }

  lemma LinesSnoc(table: string, lines: seq<string>, line: string)
    ensures LinesCommands(table, lines + [line]) == LinesCommands(table, lines) + LineCommands(table, line)
  {
    assert (lines + [line])[..|lines|] == lines;
  }

  lemma OnlyHeader(table: string, headerTail: string)
    ensures LinesCommands(table, [Header(table, headerTail)]) == [DropObjects(table)]
  {
    HeaderIsCompiled(table, headerTail);
    LinesSnoc(table, [], Header(table, headerTail));
    assert [] + [Header(table, headerTail)] == [Header(table, headerTail)];
  }

  lemma {:induction false} LinesAreCompiled(table: string, headerTail: string, lines: seq<Line>)
    requires forall k :: 0 <= k < |lines| ==> WellFormedLine(lines[k])
    ensures LinesCommands(table, [Header(table, headerTail)] + PrintLines(lines))
         == [DropObjects(table)] + CompileLines(table, lines)
  {
    var header := [Header(table, headerTail)];
    if lines == [] {
      OnlyHeader(table, headerTail);
      assert header + PrintLines(lines) == header;
    } else {
      var n := |lines| - 1;
      LinesAreCompiled(table, headerTail, lines[..n]);
      var before := [DropObjects(table)] + CompileLines(table, lines[..n]);
      NextLineIsCompiled(table, header + PrintLines(lines[..n]), before, lines[n]);
      PrintedSnoc(header[0], lines);
      CompiledSnoc(table, lines);
    }
  }

  lemma NextLineIsCompiled(table: string, printed: seq<string>, before: seq<Command>, line: Line)
    requires WellFormedLine(line) && LinesCommands(table, printed) == before
    ensures LinesCommands(table, printed + [PrintLine(line)]) == before + CompileLine(table, line)
  {
    LineIsCompiled(table, line);
    LinesSnoc(table, printed, PrintLine(line));
  }

  lemma CompiledSnoc(table: string, lines: seq<Line>)
    requires lines != []
    ensures var n := |lines| - 1;
            [DropObjects(table)] + CompileLines(table, lines)
            == [DropObjects(table)] + CompileLines(table, lines[..n]) + CompileLine(table, lines[n])
  {
  }

  lemma PrintedSnoc(header: string, lines: seq<Line>)
    requires lines != []
    ensures var n := |lines| - 1;
            [header] + PrintLines(lines) == [header] + PrintLines(lines[..n]) + [PrintLine(lines[n])]
  {
  }

  lemma TableIsParagraph(s: Statement)
    requires s.CreateTable? && WellFormed(s)
    ensures IsParagraph(Print(s))
  {
    var pieces := [Header(s.name, s.headerTail)] + PrintLines(s.lines);
    HeaderIsLine(s.name, s.headerTail);
    LinesAreLines(s.lines);
    forall k | 0 <= k < |pieces| ensures IsFullLine(pieces[k]) {
      if k > 0 { assert pieces[k] == PrintLines(s.lines)[k - 1]; }
    }
    JoinedLinesAreParagraph(pieces);
  }

  predicate IsFullLine(s: string) {
    CR !in s && LF !in s && s != ""
  }

  lemma HeaderIsLine(name: string, headerTail: string)
    requires IsName(name) && IsTail(headerTail)
    ensures IsFullLine(Header(name, headerTail))
  {
    NameCharacters(name);
    assert CR !in headerTail && LF !in headerTail by {
      assert CR in NEW_LINE && LF in NEW_LINE;
    }
    assert CR !in "create table " && LF !in "create table ";
  }

  lemma LinesAreLines(lines: seq<Line>)
    requires forall k :: 0 <= k < |lines| ==> WellFormedLine(lines[k])
    ensures forall k :: 0 <= k < |lines| ==> IsFullLine(PrintLines(lines)[k])
  {
    forall k | 0 <= k < |lines| ensures IsFullLine(PrintLines(lines)[k]) {
      NoLineEnds(lines[k]);
    }
  }

  lemma {:induction false} JoinedLinesAreParagraph(pieces: seq<string>)
    requires |pieces| > 0
    requires forall k :: 0 <= k < |pieces| ==> IsFullLine(pieces[k])
    ensures IsParagraph(Join(pieces, NEW_LINE))
    ensures pieces[0] != "" && Join(pieces, NEW_LINE) != "" && Join(pieces, NEW_LINE)[0] == pieces[0][0]
  {
    var first, text := pieces[0], Join(pieces, NEW_LINE);
    EndsWithLine(text);
    if |pieces| == 1 {
      FreeIfApart(first, BLANK_LINE);
    } else {
      var rest := Join(pieces[1..], NEW_LINE);
      JoinedLinesAreParagraph(pieces[1..]);
      EndsWithLine(rest);
      assert text[|first| + 2] == rest[0];
      forall i ensures !OccursAt(text, BLANK_LINE, i) {
        if i >= |first| + 2 {
          OccursAtSuffix(first + NEW_LINE, rest, BLANK_LINE, i);
        } else if OccursAt(text, BLANK_LINE, i) {
          BlankLineCharacters(text, i);
        }
      }
    }
  }

  lemma IndexIsReplayed(s: Statement)
    requires s.CreateIndex?
    ensures !IsTable(Print(s))
    ensures IsReplayed(Print(s)) <==> IsKept(s)
  {
    var text := Print(s);
    var rest := s.name + " on " + (s.table + " " + s.tail);
    assert text[..7] == "create ";
    PrefixAt(text, "if", 0);
    PrefixAt(text, "alter table", 0);
    PrefixAt(text, CREATE_TABLE, 7);
    if s.kind.Unmarked? {
      assert text[..12] == "create index";
    } else if s.kind.Clustered? {
      assert text[..22] == "create clustered index";
    } else {
      PrefixAt(text, "create index", 7);
      PrefixAt(text, "create clustered index", 7);
      assert text[7] == 'n' || text[7] == 'u';
    }
  }

  lemma ConstraintIsReplayed(s: Statement)
    requires s.AddConstraint?
    ensures !IsTable(Print(s)) && IsReplayed(Print(s))
  {
    var text := Print(s);
    assert text[..11] == "alter table";
    PrefixAt(text, "if", 0);
    PrefixAt(text, CREATE_TABLE, 0);
  }

  lemma StatementIsCompiled(s: Statement)
    requires WellFormed(s)
    ensures PieceCommands(Print(s)) == Some(Compile(s))
    ensures IsParagraph(Print(s))
  {
    match s {
      case CreateTable(name, headerTail, lines) =>
        PrintedTableName(s);
        PrintedLines(s);
        LinesAreCompiled(name, headerTail, lines);
        TableIsParagraph(s);
        PrefixAt(Print(s), "if", 0);
        PrefixAt(Print(s), CREATE_TABLE, 0);
      case CreateIndex(_, _, _, _) =>
        IndexIsReplayed(s);
      case AddConstraint(_, _) =>
        ConstraintIsReplayed(s);
      case Other(_) =>
    }
  }

  lemma {:induction false} PiecesAreCompiled(script: seq<Statement>)
    requires forall k :: 0 <= k < |script| ==> WellFormed(script[k])
    ensures PiecesCommands(PrintAll(script)) == Some(CompileScript(script))
  {
    if script != [] {
      var n := |script| - 1;
      PiecesAreCompiled(script[..n]);
      StatementIsCompiled(script[n]);
      assert PrintAll(script)[..n] == PrintAll(script[..n]) && PrintAll(script)[n] == Print(script[n]);
    }
  }

  lemma PrintedScriptPieces(script: seq<Statement>)
    requires WellFormedScript(script)
    ensures Split(PrintScript(script), BLANK_LINE) == PrintAll(script)
  {
    var pieces := PrintAll(script);
    forall k | 0 <= k < |pieces| ensures Clean(pieces[k], BLANK_LINE) && Free(pieces[k], BLANK_LINE) {
      StatementIsCompiled(script[k]);
      CleanParagraph(pieces[k]);
    }
    SplitInvertsJoin(pieces, BLANK_LINE);
  }

  lemma CasedScriptPieces(contents: string, script: seq<Statement>)
    requires WellFormedScript(script) && IsCasing(contents, PrintScript(script))
    ensures ScriptPieces(contents) == PrintAll(script)
  {
    LowerIsCasing(contents, PrintScript(script));
    PrintedScriptPieces(script);
  }

  /** The converter emits exactly the compiled commands, for every script in the layout and any case of its letters. */
  lemma ConvertsPrintedScript(contents: string, script: seq<Statement>)
    requires WellFormedScript(script) && IsCasing(contents, PrintScript(script))
    ensures ScriptCommands(contents) == Some(CompileScript(script))
    ensures !KeepsFinalLineEnd(contents)
  {
    CasedScriptPieces(contents, script);
    PiecesAreCompiled(script);
    LastIsParagraph(script);
  }

  lemma LastIsParagraph(script: seq<Statement>)
    requires WellFormedScript(script)
    ensures !EndsWith(PrintAll(script)[|script| - 1], NEW_LINE)
  {
    StatementIsCompiled(script[|script| - 1]);
  }
}
