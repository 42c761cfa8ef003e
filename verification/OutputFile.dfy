/**
  Reading the converter's output back. The file holds one command per paragraph, so a reader splits it at blank
  lines. That returns the emitted commands for every script but two kinds, and `FileReadsBack` names them exactly:
  a script that hands the text the converter deletes on to a command, and a script whose last paragraph is passed
  through with its line end. `DashesAreLost` and `FinalLineEndIsLost` show that both kinds exist.
  */
module OutputFile {
  import opened Wrappers
  import opened Text
  import opened UnicodeConversion

  const DELETED: string := "---"

  /** The last paragraph is passed through although a line end is still attached to it. */
  predicate KeepsFinalLineEnd(contents: string) {
    var pieces := ScriptPieces(contents);
    var last := pieces[|pieces| - 1];
    IsReplayed(last) && EndsWith(last, NEW_LINE)
  }

  /** What the commands of a line take from it does not hold the deleted text. */
  ghost predicate LineClear(line: string) {
    var trimmed := TrimStart(line);
    var words := Split(trimmed, " ");
    StartsWith(trimmed, CREATE_TABLE) || |words| < 2 ||
    if StartsWith(words[1], "nvarchar") then Free(words[0], DELETED) && Free(words[1], DELETED)
    else StartsWith(words[1], "ntext") ==> Free(words[0], DELETED)
  }

  ghost predicate LinesClear(lines: seq<string>) {
    forall k :: 0 <= k < |lines| ==> LineClear(lines[k])
  }

  /** A paragraph passed through does not hold the deleted text, nor do the names and types taken from a table. */
  ghost predicate PieceClear(piece: string) {
    if IsTable(piece) then
      TableName(piece).Some? ==>
        Free(TableName(piece).value, DELETED) && LinesClear(Split(piece, NEW_LINE))
    else IsReplayed(piece) ==> Free(piece, DELETED)
  }

  ghost predicate PiecesClear(pieces: seq<string>) {
    forall k :: 0 <= k < |pieces| ==> PieceClear(pieces[k])
  }

  ghost predicate IsClear(contents: string) {
    PiecesClear(ScriptPieces(contents))
  }

  /** The words that `Show` separates by single blanks. */
  function Words(c: Command): seq<string> {
    match c
    case DropObjects(t) => ["hm_drop_table_objects", "'" + t + "'"]
    case AlterColumn(t, col, ty) => ["ALTER", "TABLE", t, "ALTER", "COLUMN", col, ty]
    case AddText(t, col) => ["ALTER", "TABLE", t, "ADD", col, "ntext"]
    case CopyColumn(t, target, source) => ["UPDATE", t, "SET", target, "=", source]
    case DropColumn(t, col) => ["ALTER", "TABLE", t, "DROP", "COLUMN", col]
    case RenameColumn(t, col, name) => ["sp_rename", "'" + t + "." + col + "',", "'" + name + "',", "'COLUMN'"]
    case Replay(text) => [text]
  }

  lemma ShowJoinsWords(c: Command)
    ensures Show(c) == Join(Words(c), " ")
  {
    match c
    case DropObjects(t) =>
    case AlterColumn(t, col, ty) =>
      ShowAlter(t, col, ty);
    case AddText(t, col) =>
      ShowAdd(t, col);
    case CopyColumn(t, target, source) =>
      ShowCopy(t, target, source);
    case DropColumn(t, col) =>
      ShowDrop(t, col);
    case RenameColumn(t, col, name) =>
      ShowRename(t, col, name);
    case Replay(text) =>
  }

  lemma ShowAlter(t: string, col: string, ty: string)
    ensures Show(AlterColumn(t, col, ty)) == Join(Words(AlterColumn(t, col, ty)), " ")
  {
    JoinSeven(Words(AlterColumn(t, col, ty)));
    assert "ALTER" + " " + "TABLE" + " " == "ALTER TABLE ";
    assert " " + "ALTER" + " " + "COLUMN" + " " == " ALTER COLUMN ";
    Regroup7("ALTER", "TABLE", t, "ALTER", "COLUMN", col, ty);
  }

  lemma Regroup7(a: string, b: string, c: string, d: string, e: string, f: string, g: string)
    ensures a + " " + (b + " " + (c + " " + (d + " " + (e + " " + (f + " " + g)))))
         == (a + " " + b + " ") + c + (" " + d + " " + e + " ") + f + " " + g
  {
  }

  lemma Regroup6(a: string, b: string, c: string, d: string, e: string, f: string)
    ensures a + " " + (b + " " + (c + " " + (d + " " + (e + " " + f))))
         == (a + " " + b + " ") + c + (" " + d + " ") + e + (" " + f)
    ensures a + " " + (b + " " + (c + " " + (d + " " + (e + " " + f))))
         == (a + " " + b + " ") + c + (" " + d + " " + e + " ") + f
    ensures a + " " + (b + " " + (c + " " + (d + " " + (e + " " + f))))
         == (a + " ") + b + (" " + c + " ") + d + (" " + e + " ") + f
  {
  }

  lemma ShowAdd(t: string, col: string)
    ensures Show(AddText(t, col)) == Join(Words(AddText(t, col)), " ")
  {
    JoinSix(Words(AddText(t, col)));
    assert "ALTER" + " " + "TABLE" + " " == "ALTER TABLE ";
    assert " " + "ADD" + " " == " ADD ";
    assert " " + "ntext" == " ntext";
    Regroup6("ALTER", "TABLE", t, "ADD", col, "ntext");
  }

  lemma ShowCopy(t: string, target: string, source: string)
    ensures Show(CopyColumn(t, target, source)) == Join(Words(CopyColumn(t, target, source)), " ")
  {
    JoinSix(Words(CopyColumn(t, target, source)));
    assert "UPDATE" + " " == "UPDATE ";
    assert " " + "SET" + " " == " SET ";
    assert " " + "=" + " " == " = ";
    Regroup6("UPDATE", t, "SET", target, "=", source);
  }

  lemma ShowDrop(t: string, col: string)
    ensures Show(DropColumn(t, col)) == Join(Words(DropColumn(t, col)), " ")
  {
    JoinSix(Words(DropColumn(t, col)));
    assert "ALTER" + " " + "TABLE" + " " == "ALTER TABLE ";
    assert " " + "DROP" + " " + "COLUMN" + " " == " DROP COLUMN ";
    Regroup6("ALTER", "TABLE", t, "DROP", "COLUMN", col);
  }

  lemma ShowRename(t: string, col: string, name: string)
    ensures Show(RenameColumn(t, col, name)) == Join(Words(RenameColumn(t, col, name)), " ")
  {
    JoinFour(Words(RenameColumn(t, col, name)));
    assert "sp_rename" + " " + "'" == "sp_rename '";
    assert "'," + " " + "'" == "', '";
    assert "'," + " " + "'COLUMN'" == "', 'COLUMN'";
    RegroupRename("sp_rename", "'", t, ".", col, "',", name, "'COLUMN'");
  }

  lemma RegroupRename(a: string, q: string, t: string, dot: string, col: string, e: string, name: string, f: string)
    ensures a + " " + ((q + t + dot + col + e) + " " + ((q + name + e) + " " + f))
         == (a + " " + q) + t + dot + col + (e + " " + q) + name + (e + " " + f)
  {
  }

  lemma JoinFour(w: seq<string>)
    requires |w| == 4
    ensures Join(w, " ") == w[0] + " " + (w[1] + " " + (w[2] + " " + w[3]))
  {
    assert w[1..][1..] == w[2..] && w[2..][1..] == w[3..];
    assert Join(w[3..], " ") == w[3];
    assert Join(w[2..], " ") == w[2] + " " + w[3];
    assert Join(w[1..], " ") == w[1] + " " + Join(w[2..], " ");
  }

  lemma JoinSix(w: seq<string>)
    requires |w| == 6
    ensures Join(w, " ") == w[0] + " " + (w[1] + " " + (w[2] + " " + (w[3] + " " + (w[4] + " " + w[5]))))
  {
    assert w[1..][1..] == w[2..] && Join(w[1..], " ") == w[1] + " " + Join(w[2..], " ");
    JoinFour(w[2..]);
  }

  lemma JoinSeven(w: seq<string>)
    requires |w| == 7
    ensures Join(w, " ")
         == w[0] + " " + (w[1] + " " + (w[2] + " " + (w[3] + " " + (w[4] + " " + (w[5] + " " + w[6])))))
  {
    JoinSix(w[1..]);
  }

  // --- which commands survive the reading ---------------------------------------------------------

  ghost predicate FieldsFree(c: Command, sep: string) {
    match c
    case DropObjects(t) => Free(t, sep)
    case AlterColumn(t, col, ty) => Free(t, sep) && Free(col, sep) && Free(ty, sep)
    case AddText(t, col) => Free(t, sep) && Free(col, sep)
    case CopyColumn(t, target, source) => Free(t, sep) && Free(target, sep) && Free(source, sep)
    case DropColumn(t, col) => Free(t, sep) && Free(col, sep)
    case RenameColumn(t, col, name) => Free(t, sep) && Free(col, sep) && Free(name, sep)
    case Replay(text) => Free(text, sep)
  }

  lemma FreeBetween(a: string, s: string, b: string, sep: string)
    requires |sep| > 0 && Free(s, sep) && Apart(a, sep) && Apart(b, sep)
    ensures Free(a + s + b, sep)
  {
    FreeIfApart("", sep);
    if a == "" {
      assert a + s == s;
    } else {
      FreeAcross("", a, s, sep);
      assert "" + a + s == a + s;
    }
    if b == "" {
      assert a + s + b == a + s;
    } else {
      FreeAcross(a + s, b, "", sep);
      assert a + s + b + "" == a + s + b;
    }
  }

  lemma FixedWords(sep: string)
    requires sep == BLANK_LINE || sep == DELETED
    ensures Apart(" ", sep) && Apart("'", sep) && Apart("',", sep) && Apart(".", sep) && Apart("", sep)
    ensures forall w | w in {"ALTER", "TABLE", "COLUMN", "ADD", "DROP", "UPDATE", "SET", "=", "ntext"} :: Free(w, sep)
    ensures Free("hm_drop_table_objects", sep) && Free("sp_rename", sep) && Free("'COLUMN'", sep)
  {
    forall w | w in {"ALTER", "TABLE", "COLUMN", "ADD", "DROP", "UPDATE", "SET", "=", "ntext"} ensures Free(w, sep) {
      FreeIfApart(w, sep);
    }
    FreeIfApart("hm_drop_table_objects", sep);
    FreeIfApart("sp_rename", sep);
    FreeIfApart("'COLUMN'", sep);
  }

  lemma FreeInside(a: string, s: string, b: string, sep: string)
    requires Free(a + s + b, sep)
    ensures Free(s, sep)
  {
    FreeParts(a + s, b, sep);
    FreeParts(a, s, sep);
  }

  lemma QuotedFree(s: string, closing: string, sep: string)
    requires sep == BLANK_LINE || sep == DELETED
    requires closing == "'" || closing == "',"
    ensures Free("'" + s + closing, sep) <==> Free(s, sep)
  {
    FixedWords(sep);
    if Free(s, sep) {
      FreeBetween("'", s, closing, sep);
    }
    if Free("'" + s + closing, sep) {
      FreeInside("'", s, closing, sep);
    }
  }

  lemma PathFree(t: string, col: string, sep: string)
    requires sep == BLANK_LINE || sep == DELETED
    ensures Free(t + "." + col, sep) <==> Free(t, sep) && Free(col, sep)
  {
    FixedWords(sep);
    if Free(t, sep) && Free(col, sep) {
      FreeAcross(t, ".", col, sep);
    }
    if Free(t + "." + col, sep) {
      FreeParts(t + ".", col, sep);
      FreeParts(t, ".", sep);
    }
  }

  /** A separator with no blank and no letter in it can only come from a name. */
  lemma ShowFree(c: Command, sep: string)
    requires sep == BLANK_LINE || sep == DELETED
    ensures Free(Show(c), sep) <==> FieldsFree(c, sep)
  {
    ShowJoinsWords(c);
    FixedWords(sep);
    FreeJoin(Words(c), " ", sep);
    if FieldsFree(c, sep) {
      FieldsGiveWords(c, sep);
    }
    if forall k :: 0 <= k < |Words(c)| ==> Free(Words(c)[k], sep) {
      WordsGiveFields(c, sep);
    }
  }

  lemma FieldsGiveWords(c: Command, sep: string)
    requires sep == BLANK_LINE || sep == DELETED
    requires FieldsFree(c, sep)
    ensures forall k :: 0 <= k < |Words(c)| ==> Free(Words(c)[k], sep)
  {
    FixedWords(sep);
    match c {
      case DropObjects(t) =>
        QuotedFree(t, "'", sep);
      case RenameColumn(t, col, name) =>
        assert Words(c)[1] == "'" + (t + "." + col) + "',";
        PathFree(t, col, sep);
        QuotedFree(t + "." + col, "',", sep);
        QuotedFree(name, "',", sep);
      case _ =>
    }
  }

  lemma WordsGiveFields(c: Command, sep: string)
    requires sep == BLANK_LINE || sep == DELETED
    requires forall k :: 0 <= k < |Words(c)| ==> Free(Words(c)[k], sep)
    ensures FieldsFree(c, sep)
  {
    var words := Words(c);
    match c {
      case DropObjects(t) =>
        assert words[1] == "'" + t + "'";
        QuotedFree(t, "'", sep);
      case AlterColumn(t, col, ty) =>
        assert words[2] == t && words[5] == col && words[6] == ty;
      case AddText(t, col) =>
        assert words[2] == t && words[4] == col;
      case CopyColumn(t, target, source) =>
        assert words[1] == t && words[3] == target && words[5] == source;
      case DropColumn(t, col) =>
        assert words[2] == t && words[5] == col;
      case RenameColumn(t, col, name) =>
        assert words[1] == "'" + (t + "." + col) + "'," && words[2] == "'" + name + "',";
        PathFree(t, col, sep);
        QuotedFree(t + "." + col, "',", sep);
        QuotedFree(name, "',", sep);
      case Replay(text) =>
        assert words[0] == text;
    }
  }

  lemma EndsWithLine(s: string)
    ensures EndsWith(s, NEW_LINE) <==> |s| >= 2 && s[|s| - 2] == CR && s[|s| - 1] == LF
  {
    if |s| >= 2 {
      assert s[|s| - 2..] == [s[|s| - 2], s[|s| - 1]];
    }
  }

  lemma BlankLineCharacters(s: string, i: int)
    requires OccursAt(s, BLANK_LINE, i)
    ensures i + 4 <= |s| && s[i] == CR && s[i + 1] == LF && s[i + 2] == CR && s[i + 3] == LF
  {
    OccursAtChars(s, BLANK_LINE, i);
    assert BLANK_LINE[1] == LF && BLANK_LINE[2] == CR && BLANK_LINE[3] == LF;
  }

  lemma CleanParagraph(s: string)
    requires Free(s, BLANK_LINE)
    ensures Clean(s, BLANK_LINE) <==> !EndsWith(s, NEW_LINE)
  {
    var t := s + BLANK_LINE;
    EndsWithLine(s);
    if EndsWith(s, NEW_LINE) {
      assert t[|s| - 2..|s| + 2] == BLANK_LINE;
      assert OccursAt(t, BLANK_LINE, |s| - 2);
    } else {
      forall i | 0 <= i < |s| ensures !OccursAt(t, BLANK_LINE, i) {
        if i + 4 <= |s| {
          OccursAtPrefix(s, BLANK_LINE, BLANK_LINE, i);
        } else if OccursAt(t, BLANK_LINE, i) {
          BlankLineCharacters(t, i);
        }
      }
    }
  }

  lemma {:induction false} SplitParts(s: string, sep: string, x: string)
    requires |sep| > 0 && Free(s, x)
    ensures forall k :: 0 <= k < |Split(s, sep)| ==> Free(Split(s, sep)[k], x)
    decreases |s|
  {
    var i := IndexOf(s, sep, 0);
    if i >= 0 {
      var rest := s[i + |sep|..];
      assert s == s[..i] + sep + rest;
      FreeParts(s[..i] + sep, rest, x);
      FreeParts(s[..i], sep, x);
      SplitParts(rest, sep, x);
    }
  }

  lemma SplitPartsFree(s: string, sep: string)
    requires |sep| > 0
    ensures forall k :: 0 <= k < |Split(s, sep)| ==> Free(Split(s, sep)[k], sep)
  {
    JoinInvertsSplit(s, sep);
    var pieces := Split(s, sep);
    forall k | 0 <= k < |pieces| ensures Free(pieces[k], sep) {
      if k < |pieces| - 1 {
        forall i ensures !OccursAt(pieces[k], sep, i) {
          if 0 <= i && i + |sep| <= |pieces[k]| { OccursAtPrefix(pieces[k], sep, sep, i); }
        }
      }
    }
  }

  lemma PrefixOccurs(s: string, sep: string, more: string, i: int)
    requires OccursAt(s, sep + more, i)
    ensures OccursAt(s, sep, i)
  {
    assert s[i..i + |sep|] == s[i..i + |sep + more|][..|sep|];
  }

  lemma FreeOfLonger(s: string, sep: string, more: string)
    requires Free(s, sep)
    ensures Free(s, sep + more)
  {
    forall i ensures !OccursAt(s, sep + more, i) {
      if OccursAt(s, sep + more, i) {
        PrefixOccurs(s, sep, more, i);
      }
    }
  }

  lemma TrimmedIsSuffix(s: string)
    ensures exists n :: 0 <= n <= |s| && TrimStart(s) == s[n..]
  {
    if s != "" && Blank(s[0]) {
      TrimmedIsSuffix(s[1..]);
      var n :| 0 <= n <= |s| - 1 && TrimStart(s) == s[1..][n..];
      assert TrimStart(s) == s[n + 1..];
    } else {
      assert TrimStart(s) == s[0..];
    }
  }

  /** One line compiles to commands that a blank line cannot break. */
  ghost predicate Unbroken(c: Command) {
    Free(Show(c), BLANK_LINE) && !EndsWith(Show(c), NEW_LINE)
  }

  lemma LastWordEnds(s: string, w: string)
    requires Free(w, NEW_LINE)
    ensures !EndsWith(s + " " + w, NEW_LINE)
  {
    var t := s + " " + w;
    EndsWithLine(t);
    if |w| >= 2 {
      OccursAtSuffix(s + " ", w, NEW_LINE, |t| - 2);
    }
  }

  lemma LastCharacter(c: Command, last: char)
    requires Show(c) != "" && Show(c)[|Show(c)| - 1] == last != LF
    ensures !EndsWith(Show(c), NEW_LINE)
  {
    EndsWithLine(Show(c));
  }

  lemma AlterUnbroken(t: string, col: string, ty: string)
    requires Free(t, BLANK_LINE) && Free(col, BLANK_LINE) && Free(ty, BLANK_LINE) && Free(ty, NEW_LINE)
    ensures Unbroken(AlterColumn(t, col, ty))
  {
    ShowFree(AlterColumn(t, col, ty), BLANK_LINE);
    LastWordEnds("ALTER TABLE " + t + " ALTER COLUMN " + col, ty);
  }

  lemma TextColumnUnbroken(t: string, col: string)
    requires Free(t, BLANK_LINE) && Free(col, BLANK_LINE) && Free(col, NEW_LINE)
    ensures forall c :: c in TextColumn(t, col) ==> Unbroken(c)
  {
    FreeIfApart("", BLANK_LINE);
    FreeAcross(col, TMP, "", BLANK_LINE);
    assert col + TMP + "" == col + TMP;
    AddUnbroken(t, col + TMP);
    CopyUnbroken(t, col + TMP, col);
    DropUnbroken(t, col);
    RenameUnbroken(t, col + TMP, col);
  }

  lemma AddUnbroken(t: string, col: string)
    requires Free(t, BLANK_LINE) && Free(col, BLANK_LINE)
    ensures Unbroken(AddText(t, col))
  {
    ShowFree(AddText(t, col), BLANK_LINE);
    LastCharacter(AddText(t, col), 't');
  }

  lemma CopyUnbroken(t: string, target: string, source: string)
    requires Free(t, BLANK_LINE) && Free(target, BLANK_LINE) && Free(source, BLANK_LINE) && Free(source, NEW_LINE)
    ensures Unbroken(CopyColumn(t, target, source))
  {
    ShowFree(CopyColumn(t, target, source), BLANK_LINE);
    assert "UPDATE " + t + " SET " + target + " =" + " " + source == Show(CopyColumn(t, target, source));
    LastWordEnds("UPDATE " + t + " SET " + target + " =", source);
  }

  lemma DropUnbroken(t: string, col: string)
    requires Free(t, BLANK_LINE) && Free(col, BLANK_LINE) && Free(col, NEW_LINE)
    ensures Unbroken(DropColumn(t, col))
  {
    ShowFree(DropColumn(t, col), BLANK_LINE);
    assert "ALTER TABLE " + t + " DROP COLUMN" + " " + col == Show(DropColumn(t, col));
    LastWordEnds("ALTER TABLE " + t + " DROP COLUMN", col);
  }

  lemma RenameUnbroken(t: string, col: string, name: string)
    requires Free(t, BLANK_LINE) && Free(col, BLANK_LINE) && Free(name, BLANK_LINE)
    ensures Unbroken(RenameColumn(t, col, name))
  {
    ShowFree(RenameColumn(t, col, name), BLANK_LINE);
    LastCharacter(RenameColumn(t, col, name), '\'');
  }

  lemma ColumnUnbroken(table: string, column: string, columnType: string)
    requires Free(table, BLANK_LINE) && Free(column, NEW_LINE) && Free(columnType, NEW_LINE)
    ensures forall c :: c in ColumnCommands(table, column, columnType) ==> Unbroken(c)
  {
    FreeOfLonger(column, NEW_LINE, NEW_LINE);
    FreeOfLonger(columnType, NEW_LINE, NEW_LINE);
    AlterUnbroken(table, column, columnType);
    TextColumnUnbroken(table, column);
  }

  lemma LineUnbroken(table: string, line: string)
    requires Free(table, BLANK_LINE) && Free(line, NEW_LINE)
    ensures forall c :: c in LineCommands(table, line) ==> Unbroken(c)
  {
    var trimmed := TrimStart(line);
    if StartsWith(trimmed, CREATE_TABLE) {
      ShowFree(DropObjects(table), BLANK_LINE);
      LastCharacter(DropObjects(table), '\'');
    } else {
      TrimmedIsSuffix(line);
      var n :| 0 <= n <= |line| && trimmed == line[n..];
      assert line == line[..n] + trimmed;
      FreeParts(line[..n], trimmed, NEW_LINE);
      SplitParts(trimmed, " ", NEW_LINE);
      var words := Split(trimmed, " ");
      if |words| >= 2 {
        ColumnUnbroken(table, words[0], words[1]);
      }
    }
  }

  lemma {:induction false} LinesUnbroken(table: string, lines: seq<string>)
    requires Free(table, BLANK_LINE)
    requires forall k :: 0 <= k < |lines| ==> Free(lines[k], NEW_LINE)
    ensures forall c :: c in LinesCommands(table, lines) ==> Unbroken(c)
  {
    if lines != [] {
      LinesUnbroken(table, lines[..|lines| - 1]);
      LineUnbroken(table, lines[|lines| - 1]);
    }
  }

  lemma TableNameFree(piece: string, sep: string)
    requires StartsWith(piece, CREATE_TABLE) && TableName(piece).Some? && Free(piece, sep)
    ensures Free(TableName(piece).value, sep)
  {
    var n := |CREATE_TABLE| + 1;
    var end := n + |TableName(piece).value|;
    assert TableName(piece).value == piece[n..end];
    assert piece == piece[..n] + piece[n..end] + piece[end..];
    FreeInside(piece[..n], piece[n..end], piece[end..], sep);
  }

  lemma PieceUnbroken(piece: string)
    requires Free(piece, BLANK_LINE) && PieceCommands(piece).Some?
    requires !(IsReplayed(piece) && EndsWith(piece, NEW_LINE))
    ensures forall c :: c in PieceCommands(piece).value ==> Unbroken(c)
  {
    if IsTable(piece) {
      var table := TableName(piece).value;
      TableNameFree(piece, BLANK_LINE);
      SplitPartsFree(piece, NEW_LINE);
      LinesUnbroken(table, Split(piece, NEW_LINE));
    }
  }

  lemma {:induction false} PiecesUnbroken(pieces: seq<string>)
    requires PiecesCommands(pieces).Some?
    requires forall k :: 0 <= k < |pieces| ==>
               Free(pieces[k], BLANK_LINE) && !(IsReplayed(pieces[k]) && EndsWith(pieces[k], NEW_LINE))
    ensures forall c :: c in PiecesCommands(pieces).value ==> Unbroken(c)
  {
    if pieces != [] {
      PiecesUnbroken(pieces[..|pieces| - 1]);
      PieceUnbroken(pieces[|pieces| - 1]);
    }
  }

  /** The paragraphs of a script, and which of them still carry a line end at their end. */
  lemma ScriptParagraphs(contents: string)
    ensures var pieces := ScriptPieces(contents);
            && (forall k :: 0 <= k < |pieces| ==> Free(pieces[k], BLANK_LINE))
            && (forall k :: 0 <= k < |pieces| - 1 ==> !EndsWith(pieces[k], NEW_LINE))
  {
    SplitPartsFree(ToLower(contents), BLANK_LINE);
    JoinInvertsSplit(ToLower(contents), BLANK_LINE);
    var pieces := ScriptPieces(contents);
    forall k | 0 <= k < |pieces| - 1 ensures !EndsWith(pieces[k], NEW_LINE) {
      CleanParagraph(pieces[k]);
    }
  }

  lemma KeptEndBreaks(pieces: seq<string>)
    requires pieces != [] && PiecesCommands(pieces).Some?
    requires var last := pieces[|pieces| - 1]; IsReplayed(last) && Free(last, BLANK_LINE) && EndsWith(last, NEW_LINE)
    ensures !Separable(ShowAll(PiecesCommands(pieces).value) + [""], BLANK_LINE)
  {
    LastPieceReplayed(pieces);
    CleanParagraph(pieces[|pieces| - 1]);
    LastUnclean(PiecesCommands(pieces).value, pieces[|pieces| - 1]);
  }

  lemma LastUnclean(commands: seq<Command>, last: string)
    requires commands != [] && commands[|commands| - 1] == Replay(last) && !Clean(last, BLANK_LINE)
    ensures !Separable(ShowAll(commands) + [""], BLANK_LINE)
  {
    assert (ShowAll(commands) + [""])[|commands| - 1] == last;
  }

  lemma CleanEndSeparates(contents: string)
    requires ScriptCommands(contents).Some? && !KeepsFinalLineEnd(contents)
    ensures Separable(ShowAll(ScriptCommands(contents).value) + [""], BLANK_LINE)
  {
    var pieces := ScriptPieces(contents);
    ScriptParagraphs(contents);
    PiecesUnbroken(pieces);
    UnbrokenSeparate(PiecesCommands(pieces).value);
  }

  lemma UnbrokenSeparate(commands: seq<Command>)
    requires forall c :: c in commands ==> Unbroken(c)
    ensures Separable(ShowAll(commands) + [""], BLANK_LINE)
  {
    var all := ShowAll(commands) + [""];
    forall k | 0 <= k < |all| - 1 ensures Clean(all[k], BLANK_LINE) {
      assert commands[k] in commands;
      CleanParagraph(Show(commands[k]));
    }
  }

  /** Splitting the rendered commands at blank lines gives them back exactly when no line end was kept. */
  lemma RenderReadsBack(contents: string)
    requires ScriptCommands(contents).Some?
    ensures var shown := ShowAll(ScriptCommands(contents).value);
            Split(Render(shown), BLANK_LINE) == shown + [""] <==> !KeepsFinalLineEnd(contents)
  {
    SplitInvertsJoin(ShowAll(ScriptCommands(contents).value) + [""], BLANK_LINE);
    if KeepsFinalLineEnd(contents) {
      ScriptParagraphs(contents);
      KeptEndBreaks(ScriptPieces(contents));
    } else {
      CleanEndSeparates(contents);
    }
  }

  lemma ReplayedIsNotTable(piece: string)
    requires IsReplayed(piece)
    ensures !IsTable(piece)
  {
    PrefixAt(piece, CREATE_TABLE, 7);
    PrefixAt(piece, "create index", 7);
    PrefixAt(piece, "create clustered index", 7);
    PrefixAt(piece, CREATE_TABLE, 0);
    PrefixAt(piece, "alter table", 0);
  }

  lemma PrefixAt(s: string, prefix: string, k: nat)
    requires k < |prefix|
    ensures StartsWith(s, prefix) ==> k < |s| && s[k] == prefix[k]
  {
  }

  lemma LastPieceReplayed(pieces: seq<string>)
    requires pieces != [] && IsReplayed(pieces[|pieces| - 1]) && PiecesCommands(pieces).Some?
    ensures var commands := PiecesCommands(pieces).value;
            |commands| > 0 && commands[|commands| - 1] == Replay(pieces[|pieces| - 1])
  {
    ReplayedIsNotTable(pieces[|pieces| - 1]);
    assert PieceCommands(pieces[|pieces| - 1]) == Some([Replay(pieces[|pieces| - 1])]);
  }

  // --- the deleted text -----------------------------------------------------------------------------

  ghost predicate AllFree(commands: seq<Command>) {
    forall c :: c in commands ==> Free(Show(c), DELETED)
  }

  lemma TmpFree(column: string)
    ensures Free(column + TMP, DELETED) <==> Free(column, DELETED)
  {
    if Free(column, DELETED) {
      FreeIfApart("", DELETED);
      FreeAcross(column, TMP, "", DELETED);
      assert column + TMP + "" == column + TMP;
    }
    if Free(column + TMP, DELETED) {
      FreeParts(column, TMP, DELETED);
    }
  }

  lemma ColumnIsClear(table: string, column: string, columnType: string)
    requires Free(table, DELETED)
    ensures AllFree(ColumnCommands(table, column, columnType)) <==>
            if StartsWith(columnType, "nvarchar") then Free(column, DELETED) && Free(columnType, DELETED)
            else StartsWith(columnType, "ntext") ==> Free(column, DELETED)
  {
    if StartsWith(columnType, "nvarchar") {
      ShowFree(AlterColumn(table, column, columnType), DELETED);
      assert AlterColumn(table, column, columnType) in ColumnCommands(table, column, columnType);
    } else if StartsWith(columnType, "ntext") {
      TmpFree(column);
      var cs := TextColumn(table, column);
      forall c | c in cs ensures Free(Show(c), DELETED) <==> Free(column, DELETED) {
        ShowFree(c, DELETED);
      }
      assert cs[0] in cs;
    }
  }

  lemma LineIsClear(table: string, line: string)
    requires Free(table, DELETED)
    ensures AllFree(LineCommands(table, line)) <==> LineClear(line)
  {
    var trimmed := TrimStart(line);
    if StartsWith(trimmed, CREATE_TABLE) {
      ShowFree(DropObjects(table), DELETED);
    } else {
      var words := Split(trimmed, " ");
      if |words| >= 2 {
        ColumnIsClear(table, words[0], words[1]);
      }
    }
  }

  lemma AllFreeAppend(a: seq<Command>, b: seq<Command>)
    ensures AllFree(a + b) <==> AllFree(a) && AllFree(b)
  {
    if AllFree(a + b) {
      forall c | c in a ensures Free(Show(c), DELETED) { assert c in a + b; }
      forall c | c in b ensures Free(Show(c), DELETED) { assert c in a + b; }
    }
  }

  lemma LinesClearSnoc(lines: seq<string>)
    requires lines != []
    ensures LinesClear(lines) <==> LinesClear(lines[..|lines| - 1]) && LineClear(lines[|lines| - 1])
  {
    assert lines == lines[..|lines| - 1] + [lines[|lines| - 1]];
  }

  lemma {:induction false} LinesAreClear(table: string, lines: seq<string>)
    requires Free(table, DELETED)
    ensures AllFree(LinesCommands(table, lines)) <==> LinesClear(lines)
  {
    if lines != [] {
      var n := |lines| - 1;
      LinesAreClear(table, lines[..n]);
      LineIsClear(table, lines[n]);
      AllFreeAppend(LinesCommands(table, lines[..n]), LineCommands(table, lines[n]));
      LinesClearSnoc(lines);
    }
  }

  lemma PieceIsClear(piece: string)
    requires PieceCommands(piece).Some?
    ensures AllFree(PieceCommands(piece).value) <==> PieceClear(piece)
  {
    if IsTable(piece) {
      var table := TableName(piece).value;
      TableDropsFirst(piece);
      ShowFree(DropObjects(table), DELETED);
      if Free(table, DELETED) {
        LinesAreClear(table, Split(piece, NEW_LINE));
      } else {
        assert DropObjects(table) in PieceCommands(piece).value;
      }
    } else if IsReplayed(piece) {
      assert Replay(piece) in PieceCommands(piece).value;
    }
  }

  lemma PiecesClearSnoc(pieces: seq<string>)
    requires pieces != []
    ensures PiecesClear(pieces) <==> PiecesClear(pieces[..|pieces| - 1]) && PieceClear(pieces[|pieces| - 1])
  {
    assert pieces == pieces[..|pieces| - 1] + [pieces[|pieces| - 1]];
  }

  lemma {:induction false} PiecesAreClear(pieces: seq<string>)
    requires PiecesCommands(pieces).Some?
    ensures AllFree(PiecesCommands(pieces).value) <==> PiecesClear(pieces)
  {
    if pieces != [] {
      var n := |pieces| - 1;
      PiecesAreClear(pieces[..n]);
      PieceIsClear(pieces[n]);
      AllFreeAppend(PiecesCommands(pieces[..n]).value, PieceCommands(pieces[n]).value);
      PiecesClearSnoc(pieces);
    }
  }

  lemma RenderIsClear(commands: seq<Command>)
    ensures Free(Render(ShowAll(commands)), DELETED) <==> AllFree(commands)
  {
    var all := ShowAll(commands) + [""];
    FreeJoin(all, BLANK_LINE, DELETED);
    FreeIfApart("", DELETED);
    if AllFree(commands) {
      forall k | 0 <= k < |all| ensures Free(all[k], DELETED) {
        if k < |commands| { assert commands[k] in commands; }
      }
    }
    if forall k :: 0 <= k < |all| ==> Free(all[k], DELETED) {
      forall c | c in commands ensures Free(Show(c), DELETED) {
        var k :| 0 <= k < |commands| && commands[k] == c;
        assert all[k] == Show(c);
      }
    }
  }

  /**
    The exact round trip: the written file, split at blank lines, gives back the emitted commands if and only if the
    script hands no `---` on to a command and its last paragraph is not passed through with a line end.
    */
  lemma FileReadsBack(contents: string)
    requires ScriptCommands(contents).Some?
    ensures var shown := ShowAll(ScriptCommands(contents).value);
            Split(FileText(shown), BLANK_LINE) == shown + [""] <==> IsClear(contents) && !KeepsFinalLineEnd(contents)
  {
    var commands := ScriptCommands(contents).value;
    var shown := ShowAll(commands);
    PiecesAreClear(ScriptPieces(contents));
    RenderIsClear(commands);
    DeleteIsIdentity(Render(shown), DELETED);
    RenderReadsBack(contents);
    if Split(FileText(shown), BLANK_LINE) == shown + [""] {
      JoinInvertsSplit(FileText(shown), BLANK_LINE);
      assert FileText(shown) == Render(shown);
    }
  }

  lemma OneParagraph(contents: string)
    requires NoCapitals(contents) && Free(contents, BLANK_LINE) && IsReplayed(contents)
    ensures ScriptPieces(contents) == [contents] && ScriptCommands(contents) == Some([Replay(contents)])
  {
    LowerKeeps(contents);
    SplitFree(contents, BLANK_LINE);
    ReplayedIsNotTable(contents);
    assert [contents][..0] == [];
    assert PiecesCommands([contents][..0]) == Some([]);
    assert [] + [Replay(contents)] == [Replay(contents)];
  }

  lemma ReplayedDashes(contents: string, i: nat)
    requires NoCapitals(contents) && Free(contents, BLANK_LINE) && IsReplayed(contents)
    requires OccursAt(contents, DELETED, i)
    ensures ScriptCommands(contents) == Some([Replay(contents)])
    ensures Split(FileText([contents]), BLANK_LINE) != [contents, ""]
  {
    OneParagraph(contents);
    ReplayedIsNotTable(contents);
    assert !PieceClear(ScriptPieces(contents)[0]);
    FileReadsBack(contents);
    assert ShowAll([Replay(contents)]) == [contents];
    assert [contents] + [""] == [contents, ""];
  }

  /** A script of the first kind: the file does not hold the command that was emitted. */
  lemma DashesAreLost() returns (contents: string)
    ensures contents == "alter table a---b"
    ensures ScriptCommands(contents) == Some([Replay(contents)])
    ensures Split(FileText([contents]), BLANK_LINE) != [contents, ""]
  {
    contents := "alter table a---b";
    assert NoCapitals(contents);
    FreeIfApart(contents, BLANK_LINE);
    assert contents[..11] == "alter table";
    PrefixAt(contents, "if", 0);
    assert contents[13..16] == DELETED;
    ReplayedDashes(contents, 13);
  }

  /** A script of the second kind. */
  lemma FinalLineEndIsLost() returns (contents: string)
    ensures contents == "alter table a\r\n"
    ensures ScriptCommands(contents) == Some([Replay(contents)])
    ensures Split(FileText([contents]), BLANK_LINE) != [contents, ""]
  {
    contents := "alter table a\r\n";
    assert NoCapitals(contents);
    assert contents[..11] == "alter table";
    PrefixAt(contents, "if", 0);
    forall i ensures !OccursAt(contents, BLANK_LINE, i) {
      if OccursAt(contents, BLANK_LINE, i) { BlankLineCharacters(contents, i); }
    }
    OneParagraph(contents);
    EndsWithLine(contents);
    assert KeepsFinalLineEnd(contents);
    FileReadsBack(contents);
    assert ShowAll([Replay(contents)]) == [contents];
    assert [contents] + [""] == [contents, ""];
  }

  // --- what is passed through -----------------------------------------------------------------------

  /** The texts among the commands that are passed through, in order. */
  function PassedThrough(commands: seq<Command>): seq<string> {
    if commands == [] then []
    else
      var last := commands[|commands| - 1];
      PassedThrough(commands[..|commands| - 1]) + if last.Replay? then [last.text] else []
  }

  /** The paragraphs of the kinds that are passed through, in order. */
  function ReplayedPieces(pieces: seq<string>): seq<string> {
    if pieces == [] then []
    else
      var last := pieces[|pieces| - 1];
      ReplayedPieces(pieces[..|pieces| - 1]) + if IsReplayed(last) then [last] else []
  }

  lemma {:induction false} PassedThroughAppend(a: seq<Command>, b: seq<Command>)
    ensures PassedThrough(a + b) == PassedThrough(a) + PassedThrough(b)
  {
    if b == [] {
      assert a + b == a;
    } else {
      var n := |b| - 1;
      PassedThroughAppend(a, b[..n]);
      assert (a + b)[..|a + b| - 1] == a + b[..n];
    }
  }

  lemma {:induction false} NothingPassed(commands: seq<Command>)
    requires forall c :: c in commands ==> !c.Replay?
    ensures PassedThrough(commands) == []
  {
    if commands != [] {
      var n := |commands| - 1;
      assert commands[n] in commands;
      NothingPassed(commands[..n]);
    }
  }

  lemma PieceIsPassed(piece: string)
    requires PieceCommands(piece).Some?
    ensures PassedThrough(PieceCommands(piece).value) == if IsReplayed(piece) then [piece] else []
  {
    if IsTable(piece) {
      TableDropsFirst(piece);
      NothingPassed(PieceCommands(piece).value);
      if IsReplayed(piece) {
        ReplayedIsNotTable(piece);
      }
    } else if IsReplayed(piece) {
      assert [Replay(piece)][..0] == [];
      assert PassedThrough([Replay(piece)][..0]) == [];
    }
  }

  lemma {:induction false} PiecesArePassed(pieces: seq<string>)
    requires PiecesCommands(pieces).Some?
    ensures PassedThrough(PiecesCommands(pieces).value) == ReplayedPieces(pieces)
  {
    if pieces != [] {
      var n := |pieces| - 1;
      PiecesArePassed(pieces[..n]);
      PieceIsPassed(pieces[n]);
      PassedThroughAppend(PiecesCommands(pieces[..n]).value, PieceCommands(pieces[n]).value);
    }
  }

  /** One text comes from another by leaving out items. */
  predicate IsSubsequence(a: seq<string>, b: seq<string>) {
    a == [] || (b != [] && (IsSubsequence(a, b[..|b| - 1])
                            || (a[|a| - 1] == b[|b| - 1] && IsSubsequence(a[..|a| - 1], b[..|b| - 1]))))
  }

  lemma {:induction false} ReplayedAreSome(pieces: seq<string>)
    ensures IsSubsequence(ReplayedPieces(pieces), pieces)
  {
    if pieces != [] {
      var n := |pieces| - 1;
      ReplayedAreSome(pieces[..n]);
      var all, before := ReplayedPieces(pieces), ReplayedPieces(pieces[..n]);
      if IsReplayed(pieces[n]) {
        assert all[..|all| - 1] == before && all[|all| - 1] == pieces[n];
      } else {
        assert all == before;
      }
    }
  }

  /**
    For every script: the commands passed through are exactly the paragraphs of the three kinds, unchanged but for
    their case, each once and in the order of the script.
    */
  lemma PassedThroughInOrder(contents: string)
    requires ScriptCommands(contents).Some?
    ensures var passed := PassedThrough(ScriptCommands(contents).value);
            && passed == ReplayedPieces(ScriptPieces(contents))
            && IsSubsequence(passed, ScriptPieces(contents))
  {
    PiecesArePassed(ScriptPieces(contents));
    ReplayedAreSome(ScriptPieces(contents));
  }

  // --- the paragraphs of a script -------------------------------------------------------------------

  lemma {:induction false} JoinedParts(pieces: seq<string>, sep: string)
    requires |pieces| > 0 && NoCapitals(Join(pieces, sep))
    ensures forall k :: 0 <= k < |pieces| ==> NoCapitals(pieces[k])
  {
    if |pieces| > 1 {
      var first, rest := pieces[0], Join(pieces[1..], sep);
      var text := first + sep + rest;
      assert forall i :: 0 <= i < |first| ==> text[i] == first[i];
      assert forall i :: 0 <= i < |rest| ==> text[|first + sep| + i] == rest[i];
      JoinedParts(pieces[1..], sep);
      assert forall k :: 1 <= k < |pieces| ==> pieces[k] == pieces[1..][k - 1];
    }
  }

  /**
    For every text: its paragraphs, joined by blank lines, are the text in small letters, none holds a blank line, and
    none but the last ends in a line end.
    */
  lemma ParagraphsAreContents(contents: string)
    ensures var pieces := ScriptPieces(contents);
            && IsCasing(contents, Join(pieces, BLANK_LINE))
            && (forall k :: 0 <= k < |pieces| ==> NoCapitals(pieces[k]) && Free(pieces[k], BLANK_LINE))
            && (forall k :: 0 <= k < |pieces| - 1 ==> !EndsWith(pieces[k], NEW_LINE))
  {
    var pieces := ScriptPieces(contents);
    JoinInvertsSplit(ToLower(contents), BLANK_LINE);
    LowerIsCasing(contents, ToLower(contents));
    JoinedParts(pieces, BLANK_LINE);
    ScriptParagraphs(contents);
  }

  /** No command that is passed through holds a capital letter. */
  lemma PassedThroughIsLower(contents: string)
    requires ScriptCommands(contents).Some?
    ensures forall t :: t in PassedThrough(ScriptCommands(contents).value) ==>
              NoCapitals(t) && t in ScriptPieces(contents)
  {
    ParagraphsAreContents(contents);
    PiecesArePassed(ScriptPieces(contents));
    ReplayedAreIn(ScriptPieces(contents));
  }

  lemma {:induction false} ReplayedAreIn(pieces: seq<string>)
    ensures forall t :: t in ReplayedPieces(pieces) ==> t in pieces && IsReplayed(t)
  {
    if pieces != [] {
      ReplayedAreIn(pieces[..|pieces| - 1]);
    }
  }

  // --- the MySQL commands ---------------------------------------------------------------------------

  /** One command for every drop, about the same table. */
  function CharsetsFor(commands: seq<Command>): seq<string> {
    if commands == [] then []
    else
      var last := commands[|commands| - 1];
      CharsetsFor(commands[..|commands| - 1])
      + if last.DropObjects? then ["ALTER TABLE " + last.table + " CONVERT TO CHARACTER SET utf8"] else []
  }

  lemma {:induction false} CharsetsAppend(a: seq<Command>, b: seq<Command>)
    ensures CharsetsFor(a + b) == CharsetsFor(a) + CharsetsFor(b)
  {
    if b == [] {
      assert a + b == a;
    } else {
      var n := |b| - 1;
      CharsetsAppend(a, b[..n]);
      assert (a + b)[..|a + b| - 1] == a + b[..n];
    }
  }

  lemma {:induction false} NoDropNoCharset(commands: seq<Command>)
    requires forall c :: c in commands ==> !c.DropObjects?
    ensures CharsetsFor(commands) == []
  {
    if commands != [] {
      var n := |commands| - 1;
      assert commands[n] in commands;
      NoDropNoCharset(commands[..n]);
    }
  }

  lemma LineCharset(table: string, line: string)
    ensures CharsetsFor(LineCommands(table, line)) == LineCharsets(table, line)
  {
    if StartsWith(TrimStart(line), CREATE_TABLE) {
      assert [DropObjects(table)][..0] == [];
      assert CharsetsFor([DropObjects(table)][..0]) == [];
    } else {
      NoDropNoCharset(LineCommands(table, line));
    }
  }

  lemma {:induction false} LinesCharsets(table: string, lines: seq<string>)
    ensures CharsetsFor(LinesCommands(table, lines)) == ConvertCharsets(table, lines)
  {
    if lines != [] {
      var n := |lines| - 1;
      LinesCharsets(table, lines[..n]);
      LineCharset(table, lines[n]);
      CharsetsAppend(LinesCommands(table, lines[..n]), LineCommands(table, lines[n]));
    }
  }

  /** The MySQL commands collected are one for each table definition, in order. */
  lemma {:induction false} CharsetsFollowDrops(pieces: seq<string>)
    requires PiecesCommands(pieces).Some?
    ensures PiecesCharsets(pieces) == CharsetsFor(PiecesCommands(pieces).value)
  {
    if pieces != [] {
      var n := |pieces| - 1;
      CharsetsFollowDrops(pieces[..n]);
      if IsTable(pieces[n]) {
        LinesCharsets(TableName(pieces[n]).value, Split(pieces[n], NEW_LINE));
      } else {
        NoDropNoCharset(PieceCommands(pieces[n]).value);
      }
      CharsetsAppend(PiecesCommands(pieces[..n]).value, PieceCommands(pieces[n]).value);
    }
  }

  // --- where the original fails ---------------------------------------------------------------------

  /** A blank and a line end follow the start of the table name. */
  ghost predicate HasName(command: string) {
    var n := |CREATE_TABLE| + 2;
    (exists i :: i >= n && OccursAt(command, " ", i)) && (exists i :: i >= n && OccursAt(command, NEW_LINE, i))
  }

  lemma TableNameExists(command: string)
    requires StartsWith(command, CREATE_TABLE)
    ensures TableName(command).Some? <==> HasName(command)
  {
    var n := |CREATE_TABLE| + 2;
    if n <= |command| {
      var blank, lineEnd := IndexOf(command, " ", n), IndexOf(command, NEW_LINE, n);
      if blank >= 0 && lineEnd >= 0 {
        assert OccursAt(command, " ", blank) && OccursAt(command, NEW_LINE, lineEnd);
      }
    }
  }

  ghost predicate IsNameless(piece: string) {
    StartsWith(piece, CREATE_TABLE) && !HasName(piece)
  }

  lemma {:induction false} PiecesThrow(pieces: seq<string>)
    ensures PiecesCommands(pieces).None? <==> exists k :: 0 <= k < |pieces| && IsNameless(pieces[k])
  {
    if pieces != [] {
      var n := |pieces| - 1;
      PiecesThrow(pieces[..n]);
      PrefixAt(pieces[n], "if", 0);
      PrefixAt(pieces[n], CREATE_TABLE, 0);
      if IsTable(pieces[n]) {
        TableNameExists(pieces[n]);
      }
      assert pieces == pieces[..n] + [pieces[n]];
      if k :| 0 <= k < n && IsNameless(pieces[..n][k]) {
        assert IsNameless(pieces[k]);
      }
    }
  }

  /** A text is refused exactly when some paragraph is a table definition without a readable name. */
  lemma ScriptThrows(contents: string)
    ensures ScriptCommands(contents).None? <==>
            exists k :: 0 <= k < |ScriptPieces(contents)|
                        && IsNameless(ScriptPieces(contents)[k])
  {
    PiecesThrow(ScriptPieces(contents));
  }
}
