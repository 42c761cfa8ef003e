/**
  How a SQL server reads the importer's batch. Statements end at semicolons outside quotes, and inside a literal two
  quotes stand for one (section 5.3 of ISO/IEC 9075-2). `BatchSplitsIntoStatements` gives the exact condition on the
  language name under which the batch is read as one statement per accepted line, and `StatementDecodes` recovers
  what each statement writes.
  */
module TranslationBatch {
  import opened Wrappers
  import opened Text
  import opened Decimal
  import opened TranslationImport

  // --- the lexer ------------------------------------------------------------------------------------

  /** Splits at the semicolons outside quotes; `inside` says whether the text starts inside a literal. */
  function SplitStatements(s: string, inside: bool): (r: seq<string>)
    ensures |r| > 0
  {
    if s == "" then [""]
    else if s[0] == ';' && !inside then [""] + SplitStatements(s[1..], false)
    else
      var rest := SplitStatements(s[1..], if s[0] == '\'' then !inside else inside);
      [[s[0]] + rest[0]] + rest[1..]
  }

  /** Whether the text ends inside a literal. */
  function EndsInside(s: string, inside: bool): bool {
    if s == "" then inside else EndsInside(s[1..], if s[0] == '\'' then !inside else inside)
  }

  /** No semicolon stands outside quotes. */
  predicate Quiet(s: string, inside: bool) {
    s == "" ||
    if s[0] == ';' then inside && Quiet(s[1..], inside)
    else Quiet(s[1..], if s[0] == '\'' then !inside else inside)
  }

  /** A whole statement: it ends outside quotes and holds no semicolon outside quotes. */
  predicate Whole(s: string) {
    Quiet(s, false) && !EndsInside(s, false)
  }

  /** Reads a literal after its opening quote: its value and the text after its closing quote. */
  function ReadLiteral(s: string): Option<(string, string)> {
    if s == "" then None
    else if s[0] == '\'' && (|s| == 1 || s[1] != '\'') then Some(("", s[1..]))
    else
      var step := if s[0] == '\'' then 2 else 1;
      match ReadLiteral(s[step..])
      case None => None
      case Some((value, rest)) => Some(([s[0]] + value, rest))
  }

  /** What a statement of the batch writes: the language of the column, the value and the row. */
  datatype Write = Write(language: string, value: string, id: int)

  const BEFORE_LANGUAGE: string := "update hm_tran_strings set language_"
  const BEFORE_VALUE: string := " = "
  const BEFORE_ID: string := " where stringid = "

  function Decode(statement: string): Option<Write> {
    var quote := IndexOf(statement, "'", 0);
    if quote < 0 || !StartsWith(statement, BEFORE_LANGUAGE)
       || quote < |BEFORE_LANGUAGE| + |BEFORE_VALUE| || !EndsWith(statement[..quote], BEFORE_VALUE) then None
    else DecodeLiteral(statement[|BEFORE_LANGUAGE|..quote - |BEFORE_VALUE|], statement[quote + 1..])
  }

  /** Reads the value, from after its opening quote, and the row number. */
  function DecodeLiteral(language: string, text: string): Option<Write> {
    match ReadLiteral(text)
    case None => None
    case Some((value, rest)) =>
      if !StartsWith(rest, BEFORE_ID) then None
      else
        match ParseInt32(rest[|BEFORE_ID|..])
        case None => None
        case Some(id) => Some(Write(language, value, id))
  }

  // --- quote doubling -------------------------------------------------------------------------------

  function Doubled(v: string): string {
    if v == "" then "" else (if v[0] == '\'' then "''" else [v[0]]) + Doubled(v[1..])
  }

  lemma {:induction false} ReplaceDoubles(v: string)
    ensures Replace(v, "'", "''") == Doubled(v)
    decreases |v|
  {
    var i := IndexOf(v, "'", 0);
    if i < 0 {
      NoQuoteBefore(v, |v|);
      NothingToDouble(v);
    } else {
      var rest := v[i + 1..];
      ReplaceDoubles(rest);
      NoQuoteBefore(v, i);
      NothingToDouble(v[..i]);
      DoubledAtQuote(v, i);
      ReplaceAtQuote(v, i);
    }
  }

  lemma NoQuoteBefore(v: string, n: nat)
    requires n <= |v| && forall k :: 0 <= k < n ==> !OccursAt(v, "'", k)
    ensures forall k :: 0 <= k < n ==> v[..n][k] != '\''
    ensures n == |v| ==> v[..n] == v
  {
    forall k | 0 <= k < n ensures v[k] != '\'' {
      assert v[k..k + 1] == [v[k]];
      assert !OccursAt(v, "'", k);
    }
  }

  lemma DoubledAtQuote(v: string, i: nat)
    requires OccursAt(v, "'", i)
    ensures Doubled(v) == Doubled(v[..i]) + "''" + Doubled(v[i + 1..])
  {
    OccursAtChars(v, "'", i);
    assert v == v[..i] + v[i..];
    DoubledAppend(v[..i], v[i..]);
    assert v[i..][1..] == v[i + 1..] && v[i..][0] == '\'';
  }

  lemma ReplaceAtQuote(v: string, i: nat)
    requires i == IndexOf(v, "'", 0)
    ensures Replace(v, "'", "''") == v[..i] + "''" + Replace(v[i + 1..], "'", "''")
  {
    var pieces := Split(v, "'");
    assert pieces[0] == v[..i] && pieces[1..] == Split(v[i + 1..], "'");
  }

  lemma {:induction false} NothingToDouble(v: string)
    requires forall k :: 0 <= k < |v| ==> v[k] != '\''
    ensures Doubled(v) == v
  {
    if v != "" {
      NothingToDouble(v[1..]);
    }
  }

  lemma {:induction false} DoubledAppend(a: string, b: string)
    ensures Doubled(a + b) == Doubled(a) + Doubled(b)
  {
    if a == "" {
      assert a + b == b;
    } else {
      assert (a + b)[1..] == a[1..] + b;
      DoubledAppend(a[1..], b);
    }
  }

  /** A doubled value is read back from between its quotes, whatever it holds. */
  lemma {:induction false} LiteralReadsBack(v: string, rest: string)
    requires rest == "" || rest[0] != '\''
    ensures ReadLiteral(Doubled(v) + "'" + rest) == Some((v, rest))
  {
    var s := Doubled(v) + "'" + rest;
    if v == "" {
      assert s == "'" + rest;
    } else {
      LiteralReadsBack(v[1..], rest);
      var step := if v[0] == '\'' then 2 else 1;
      assert s[step..] == Doubled(v[1..]) + "'" + rest;
      assert [v[0]] + v[1..] == v;
      if v[0] == '\'' { assert s[..2] == "''"; assert s[1] == '\''; }
    }
  }

  lemma {:induction false} DoubledIsQuiet(v: string)
    ensures Quiet(Doubled(v), true) && EndsInside(Doubled(v), true)
  {
    if v != "" {
      DoubledIsQuiet(v[1..]);
      var d := Doubled(v);
      if v[0] == '\'' {
        assert d[0] == '\'' && d[1..][0] == '\'' && d[1..][1..] == Doubled(v[1..]);
      } else {
        assert d[0] == v[0] && d[1..] == Doubled(v[1..]);
      }
    }
  }

  // --- one statement --------------------------------------------------------------------------------

  lemma {:induction false} LexAppend(a: string, b: string, inside: bool)
    ensures EndsInside(a + b, inside) == EndsInside(b, EndsInside(a, inside))
    ensures Quiet(a + b, inside) <==> Quiet(a, inside) && Quiet(b, EndsInside(a, inside))
  {
    if a == "" {
      assert a + b == b;
    } else {
      assert (a + b)[1..] == a[1..] + b;
      LexAppend(a[1..], b, if a[0] == '\'' then !inside else inside);
    }
  }

  lemma {:induction false} PlainText(s: string, inside: bool)
    requires '\'' !in s && ';' !in s
    ensures Quiet(s, inside) && EndsInside(s, inside) == inside
  {
    if s != "" {
      PlainText(s[1..], inside);
    }
  }

  lemma {:induction false} EndsInsideFlips(s: string)
    ensures EndsInside(s, true) == !EndsInside(s, false)
  {
    if s != "" {
      EndsInsideFlips(s[1..]);
    }
  }

  lemma PrintedIntIsPlain(n: int)
    ensures '\'' !in PrintInt(n) && ';' !in PrintInt(n)
  {
  }

  /** The three parts of a statement around its literal. */
  lemma StatementParts(language: string, u: Update)
    ensures Statement(language, u)
         == BEFORE_LANGUAGE + language + BEFORE_VALUE + "'" + Doubled(u.value) + "'" + (BEFORE_ID + PrintInt(u.id))
  {
    ReplaceDoubles(u.value);
    assert " = " + "'" == " = '";
    assert "'" + " where stringid = " == "' where stringid = ";
  }

  /** A quoted value between two plain texts. */
  /** A literal, and what follows it, read from its opening quote on. */
  lemma LiteralIsWhole(value: string, after: string)
    requires '\'' !in after && ';' !in after
    ensures Whole("'" + (Doubled(value) + "'" + after))
  {
    var quoted := Doubled(value) + "'" + after;
    PlainText(after, false);
    assert ("'" + after)[1..] == after;
    DoubledIsQuiet(value);
    LexAppend(Doubled(value), "'" + after, true);
    assert Doubled(value) + ("'" + after) == quoted;
    assert ("'" + quoted)[1..] == quoted;
  }

  lemma QuotedIsWhole(before: string, value: string, after: string)
    requires '\'' !in before && ';' !in before && '\'' !in after && ';' !in after
    ensures Whole(before + "'" + Doubled(value) + "'" + after)
    ensures EndsInside(before + "'" + Doubled(value) + "'" + after, true)
  {
    var literal := "'" + (Doubled(value) + "'" + after);
    var text := before + "'" + Doubled(value) + "'" + after;
    LiteralIsWhole(value, after);
    PlainText(before, false);
    LexAppend(before, literal, false);
    assert before + literal == text;
    EndsInsideFlips(text);
  }

  lemma AfterLanguage(u: Update)
    ensures var tail := BEFORE_VALUE + "'" + Doubled(u.value) + "'" + (BEFORE_ID + PrintInt(u.id));
            && Whole(tail)
            && EndsInside(tail, true)
  {
    PrintedIntIsPlain(u.id);
    QuotedIsWhole(BEFORE_VALUE, u.value, BEFORE_ID + PrintInt(u.id));
  }

  lemma WholeAround(head: string, language: string, tail: string)
    requires '\'' !in head && ';' !in head && Whole(tail) && EndsInside(tail, true)
    ensures Whole(head + (language + tail)) <==> Whole(language)
  {
    PlainText(head, false);
    LexAppend(head, language + tail, false);
    LexAppend(language, tail, false);
  }

  /** A statement is whole exactly when its language name is. */
  lemma StatementIsWhole(language: string, u: Update)
    ensures Whole(Statement(language, u)) <==> Whole(language)
  {
    var tail := BEFORE_VALUE + "'" + Doubled(u.value) + "'" + (BEFORE_ID + PrintInt(u.id));
    AfterLanguage(u);
    StatementEnds(language, u, tail);
    WholeAround(BEFORE_LANGUAGE, language, tail);
  }

  lemma StatementEnds(language: string, u: Update, tail: string)
    requires tail == BEFORE_VALUE + "'" + Doubled(u.value) + "'" + (BEFORE_ID + PrintInt(u.id))
    ensures Statement(language, u) == BEFORE_LANGUAGE + (language + tail)
  {
    StatementParts(language, u);
  }

  /** Decoding a statement gives back its language, its value and its row number, quotes and semicolons included. */
  lemma StatementDecodes(language: string, u: Update)
    requires '\'' !in language && IsInt32(u.id)
    ensures Decode(Statement(language, u)) == Some(Write(language, u.value, u.id))
  {
    var s := Statement(language, u);
    var literal := Doubled(u.value) + "'" + (BEFORE_ID + PrintInt(u.id));
    StatementText(language, u);
    DecodeParts(s, language, literal);
    LiteralDecodes(language, u);
  }

  lemma StatementText(language: string, u: Update)
    ensures Statement(language, u)
         == BEFORE_LANGUAGE + language + BEFORE_VALUE + "'" + (Doubled(u.value) + "'" + (BEFORE_ID + PrintInt(u.id)))
  {
    StatementParts(language, u);
  }

  lemma DecodeParts(s: string, language: string, literal: string)
    requires '\'' !in language && s == BEFORE_LANGUAGE + language + BEFORE_VALUE + "'" + literal
    ensures Decode(s) == DecodeLiteral(language, literal)
  {
    var head := BEFORE_LANGUAGE + language + BEFORE_VALUE;
    assert '\'' !in head;
    FirstQuote(head, literal);
    LanguageBetween(language, s);
  }

  lemma LiteralDecodes(language: string, u: Update)
    requires IsInt32(u.id)
    ensures DecodeLiteral(language, Doubled(u.value) + "'" + (BEFORE_ID + PrintInt(u.id)))
         == Some(Write(language, u.value, u.id))
  {
    var rest := BEFORE_ID + PrintInt(u.id);
    LiteralReadsBack(u.value, rest);
    ParseInvertsPrint(u.id);
    assert rest[|BEFORE_ID|..] == PrintInt(u.id);
  }

  lemma FirstQuote(head: string, literal: string)
    requires '\'' !in head
    ensures var s := head + "'" + literal;
            IndexOf(s, "'", 0) == |head| && s[..|head|] == head && s[|head| + 1..] == literal
  {
    var s := head + "'" + literal;
    CleanIfApart(head, "'");
    assert s[|head|..|head| + 1] == "'";
    assert OccursAt(s, "'", |head|);
    forall i | 0 <= i < |head| ensures !OccursAt(s, "'", i) {
      OccursAtPrefix(head + "'", literal, "'", i);
    }
  }

  lemma LanguageBetween(language: string, s: string)
    requires StartsWith(s, BEFORE_LANGUAGE + language + BEFORE_VALUE)
    ensures var n := |BEFORE_LANGUAGE + language|;
            && StartsWith(s, BEFORE_LANGUAGE)
            && s[|BEFORE_LANGUAGE|..n] == language
            && EndsWith(s[..n + |BEFORE_VALUE|], BEFORE_VALUE)
  {
    var head := BEFORE_LANGUAGE + language + BEFORE_VALUE;
    assert s[..|head|] == head;
    assert s[|BEFORE_LANGUAGE|..|BEFORE_LANGUAGE + language|] == head[|BEFORE_LANGUAGE|..|BEFORE_LANGUAGE + language|];
  }

  // --- the batch ------------------------------------------------------------------------------------

  lemma {:induction false} SplitWhole(p: string, rest: string, inside: bool)
    requires Quiet(p, inside) && !EndsInside(p, inside)
    ensures SplitStatements(p + ";" + rest, inside) == [p] + SplitStatements(rest, false)
  {
    var s := p + ";" + rest;
    if p == "" {
      assert s == ";" + rest && s[1..] == rest;
    } else {
      assert s[1..] == p[1..] + ";" + rest;
      SplitWhole(p[1..], rest, if p[0] == '\'' then !inside else inside);
      assert [p[0]] + p[1..] == p;
    }
  }

  lemma {:induction false} FirstIsWhole(s: string, inside: bool)
    ensures Quiet(SplitStatements(s, inside)[0], inside)
    ensures |SplitStatements(s, inside)| > 1 ==> !EndsInside(SplitStatements(s, inside)[0], inside)
  {
    if s != "" && !(s[0] == ';' && !inside) {
      var next := if s[0] == '\'' then !inside else inside;
      FirstIsWhole(s[1..], next);
      assert SplitStatements(s, inside)[0][1..] == SplitStatements(s[1..], next)[0];
    }
  }

  lemma {:induction false} WholePiecesSplit(ps: seq<string>)
    requires forall k :: 0 <= k < |ps| ==> Whole(ps[k])
    ensures SplitStatements(Terminated(ps, ";"), false) == ps + [""]
  {
    if ps != [] {
      WholePiecesSplit(ps[1..]);
      TerminatedFirst(ps, ";");
      SplitWhole(ps[0], Terminated(ps[1..], ";"), false);
      assert [ps[0]] + (ps[1..] + [""]) == ps + [""];
    }
  }

  /** The batch is read as one statement per accepted line exactly when the language name is whole. */
  lemma BatchSplitsIntoStatements(language: string, us: seq<Update>)
    ensures SplitStatements(Batch(language, us), false) == Statements(language, us) + [""]
            <==> us == [] || Whole(language)
  {
    var ps := Statements(language, us);
    if us != [] {
      if Whole(language) {
        forall k | 0 <= k < |ps| ensures Whole(ps[k]) {
          StatementIsWhole(language, us[k]);
        }
        WholePiecesSplit(ps);
      } else {
        StatementIsWhole(language, us[0]);
        FirstIsWhole(Batch(language, us), false);
      }
    }
  }

  // --- what the batch does --------------------------------------------------------------------------

  /** The rows of the string table: one text per language. */
  type Rows = map<int, map<string, string>>

  function Execute(w: Write, rows: Rows): Rows {
    if w.id in rows then rows[w.id := rows[w.id][w.language := w.value]] else rows
  }

  /** Runs a batch: splits it, decodes each statement and executes it; none when a statement is not understood. */
  function RunStatements(statements: seq<string>, rows: Rows): Option<Rows> {
    if statements == [] then Some(rows)
    else
      match RunStatements(statements[..|statements| - 1], rows)
      case None => None
      case Some(before) =>
        match Decode(statements[|statements| - 1])
        case None => None
        case Some(w) => Some(Execute(w, before))
  }

  function RunBatch(batch: string, rows: Rows): Option<Rows> {
    var statements := SplitStatements(batch, false);
    RunStatements(statements[..|statements| - 1], rows)
  }

  /** The value of the last accepted line for a row, if there is one. */
  function LastValue(us: seq<Update>, id: int): Option<string> {
    if us == [] then None
    else if us[|us| - 1].id == id then Some(us[|us| - 1].value)
    else LastValue(us[..|us| - 1], id)
  }

  /** Every row has the last value imported for it; other languages and rows are untouched. */
  function Imported(language: string, us: seq<Update>, rows: Rows): Rows {
    map id | id in rows ::
      match LastValue(us, id)
      case None => rows[id]
      case Some(v) => rows[id][language := v]
  }

  lemma ImportedOneMore(language: string, us: seq<Update>, rows: Rows)
    requires us != []
    ensures var u := us[|us| - 1];
            Execute(Write(language, u.value, u.id), Imported(language, us[..|us| - 1], rows))
            == Imported(language, us, rows)
  {
    var u, n := us[|us| - 1], |us| - 1;
    var before, after := Imported(language, us[..n], rows), Imported(language, us, rows);
    forall id | id in rows ensures after[id] == if id == u.id then before[id][language := u.value] else before[id] {
      if id == u.id && LastValue(us[..n], id).Some? {
        var v := LastValue(us[..n], id).value;
        assert rows[id][language := v][language := u.value] == rows[id][language := u.value];
      }
    }
  }

  lemma {:induction false} StatementsImport(language: string, us: seq<Update>, rows: Rows)
    requires '\'' !in language && forall k :: 0 <= k < |us| ==> IsInt32(us[k].id)
    ensures RunStatements(Statements(language, us), rows) == Some(Imported(language, us, rows))
  {
    if us == [] {
      assert Imported(language, us, rows) == rows;
    } else {
      var n := |us| - 1;
      StatementsImport(language, us[..n], rows);
      LastDecodes(language, us);
      ImportedOneMore(language, us, rows);
      OneMoreStatement(Statements(language, us), rows, Imported(language, us[..n], rows),
                       Write(language, us[n].value, us[n].id));
    }
  }

  lemma LastDecodes(language: string, us: seq<Update>)
    requires '\'' !in language && us != [] && IsInt32(us[|us| - 1].id)
    ensures var n, ps := |us| - 1, Statements(language, us);
            && |ps| == n + 1 && ps[..n] == Statements(language, us[..n])
            && Decode(ps[n]) == Some(Write(language, us[n].value, us[n].id))
  {
    var n := |us| - 1;
    StatementDecodes(language, us[n]);
    assert Statements(language, us)[n] == Statement(language, us[n]);
  }

  lemma OneMoreStatement(statements: seq<string>, rows: Rows, before: Rows, w: Write)
    requires statements != []
    requires RunStatements(statements[..|statements| - 1], rows) == Some(before)
    requires Decode(statements[|statements| - 1]) == Some(w)
    ensures RunStatements(statements, rows) == Some(Execute(w, before))
  {
  }

  lemma AcceptedIdsAreInt32(lines: seq<string>)
    requires ReadLines(lines).Some?
    ensures forall k :: 0 <= k < |ReadLines(lines).value| ==> IsInt32(ReadLines(lines).value[k].id)
  {
  }

  /**
    For every translation file that imports without an exception, the batch gives each row the value of its last
    accepted line, whatever characters the values hold, and changes nothing else.
    */
  lemma FileIsImported(language: string, contents: string, rows: Rows)
    requires '\'' !in language && ';' !in language && ReadLines(Lines(contents)).Some?
    ensures var us := ReadLines(Lines(contents)).value;
            RunBatch(Batch(language, us), rows) == Some(Imported(language, us, rows))
  {
    var us := ReadLines(Lines(contents)).value;
    AcceptedIdsAreInt32(Lines(contents));
    PlainText(language, false);
    BatchSplitsIntoStatements(language, us);
    var ps := Statements(language, us);
    assert (ps + [""])[..|ps|] == ps;
    StatementsImport(language, us, rows);
  }

  // --- translation files ----------------------------------------------------------------------------

  function PrintUpdate(u: Update): string {
    "String_" + PrintInt(u.id) + "=" + u.value
  }

  /** A translation file with one setting per line, after a heading. */
  function PrintFile(heading: string, us: seq<Update>): string {
    if us == [] then heading else PrintFile(heading, us[..|us| - 1]) + NEW_LINE + PrintUpdate(us[|us| - 1])
  }

  lemma PrintedUpdateIsRead(u: Update)
    requires IsInt32(u.id)
    ensures ReadLine(PrintUpdate(u)) == Accepted(u)
  {
    var line, id := PrintUpdate(u), PrintInt(u.id);
    var e := 7 + |id|;
    assert line == "String_" + id + ("=" + u.value);
    assert line[e..e + 1] == "=" && line[6..7] == "_";
    forall i | 0 <= i < e ensures !OccursAt(line, "=", i) {
      assert line[i] != '=' by {
        if i >= 7 { assert line[i] == id[i - 7]; }
      }
    }
    assert OccursAt(line, "=", e) && OccursAt(line, "_", 6);
    assert IndexOf(line, "=", 0) == e;
    forall i | 0 <= i < 6 ensures !OccursAt(line, "_", i) {
      assert line[i] == "String_"[i];
    }
    assert IndexOf(line, "_", 0) == 6;
    assert line[7..e] == id && line[e + 1..] == u.value;
    ParseInvertsPrint(u.id);
  }

  lemma {:induction false} LinesOfLine(s: string)
    requires CR !in s && LF !in s
    ensures Lines(s) == [s]
  {
    if s != "" {
      LinesOfLine(s[1..]);
      assert s[0] !in NEW_LINE;
      assert [s[0]] + s[1..] == s;
    }
  }

  /** Every carriage return and every line feed ends a line. */
  lemma {:induction false} LinesAt(a: string, c: char, b: string)
    requires c == CR || c == LF
    ensures Lines(a + [c] + b) == Lines(a) + Lines(b)
  {
    var s := a + [c] + b;
    if a == "" {
      assert s == [c] + b && s[1..] == b;
      assert c in NEW_LINE by { assert NEW_LINE[0] == CR && NEW_LINE[1] == LF; }
    } else {
      assert s[1..] == a[1..] + [c] + b;
      LinesAt(a[1..], c, b);
    }
  }

  lemma LinesAppend(a: string, line: string)
    requires CR !in line && LF !in line
    ensures Lines(a + NEW_LINE + line) == Lines(a) + ["", line]
  {
    assert a + NEW_LINE + line == a + [CR] + ("" + [LF] + line);
    LinesAt(a, CR, "" + [LF] + line);
    LinesAt("", LF, line);
    LinesOfLine(line);
  }

  predicate IsHeading(s: string) {
    CR !in s && LF !in s && '=' !in s
  }

  lemma HeadingIsSkipped(heading: string)
    requires IsHeading(heading)
    ensures ReadLines(Lines(heading)) == Some([])
  {
    var lines := [heading];
    LinesOfLine(heading);
    NoEqualsIsSkipped(heading);
    assert lines[..0] == [] && lines[..1] == lines;
    assert ReadLines(lines[..0]) == Some([]);
    OneMoreLine(lines, 0, []);
    assert [] + UpdatesOf(Skipped) == [];
  }

  lemma NoEqualsIsSkipped(line: string)
    requires '=' !in line
    ensures ReadLine(line) == Skipped
  {
    FreeIfApart(line, "=");
  }

  lemma TwoMoreLines(lines: seq<string>, line: string, us: seq<Update>, u: Update)
    requires ReadLines(lines) == Some(us) && ReadLine(line) == Accepted(u)
    ensures ReadLines(lines + ["", line]) == Some(us + [u])
  {
    var all := lines + ["", line];
    assert all[..|lines|] == lines && all[..|all|] == all;
    assert ReadLine("") == Skipped;
    OneMoreLine(all, |lines|, us);
    assert us + [] == us;
    OneMoreLine(all, |lines| + 1, us);
  }

  /** The id fits the original's integer and the value its line. */
  predicate IsWritable(u: Update) {
    IsInt32(u.id) && CR !in u.value && LF !in u.value
  }

  predicate AllWritable(us: seq<Update>) {
    forall k :: 0 <= k < |us| ==> IsWritable(us[k])
  }

  lemma AddedUpdate(text: string, us: seq<Update>, u: Update)
    requires ReadLines(Lines(text)) == Some(us) && IsWritable(u)
    ensures ReadLines(Lines(text + NEW_LINE + PrintUpdate(u))) == Some(us + [u])
  {
    PrintedUpdateIsRead(u);
    PrintedUpdateIsLine(u);
    LinesAppend(text, PrintUpdate(u));
    TwoMoreLines(Lines(text), PrintUpdate(u), us, u);
  }

  lemma {:induction false} PrintedFileIsRead(heading: string, us: seq<Update>)
    requires IsHeading(heading) && AllWritable(us)
    ensures ReadLines(Lines(PrintFile(heading, us))) == Some(us)
  {
    if us == [] {
      HeadingIsSkipped(heading);
      return;
    }
    var n := |us| - 1;
    var before, u := us[..n], us[n];
    assert AllWritable(before) && IsWritable(u) && us == before + [u];
    var text := PrintFile(heading, before);
    PrintedFileIsRead(heading, before);
    AddedUpdate(text, before, u);
    assert PrintFile(heading, us) == text + NEW_LINE + PrintUpdate(u);
  }

  lemma PrintedUpdateIsLine(u: Update)
    requires CR !in u.value && LF !in u.value
    ensures CR !in PrintUpdate(u) && LF !in PrintUpdate(u)
  {
  }

  /** Round trip: every list of translations survives being written to a file, imported and executed. */
  lemma TranslationsSurvive(language: string, heading: string, us: seq<Update>, rows: Rows)
    requires '\'' !in language && ';' !in language && IsHeading(heading) && AllWritable(us)
    ensures ReadLines(Lines(PrintFile(heading, us))) == Some(us)
    ensures RunBatch(Batch(language, us), rows) == Some(Imported(language, us, rows))
  {
    PrintedFileIsRead(heading, us);
    FileIsImported(language, PrintFile(heading, us), rows);
  }

  // --- which lines are accepted ---------------------------------------------------------------------

  /**
    What any line gives, by its text before and after the first `=`. The number stands after the first underscore of
    the text before, or is all of it when there is no underscore; one that comes only after the `=` is an exception.
    */
  lemma LineIsRead(key: string, value: string)
    requires '=' !in key && key != ""
    ensures '_' !in key && '_' in value ==> ReadLine(key + "=" + value).Threw?
    ensures '_' !in key && '_' !in value ==> ReadLine(key + "=" + value) == NumberedLine(key, value)
    ensures forall k :: 0 <= k < |key| && key[k] == '_' && '_' !in key[..k] ==>
              ReadLine(key + "=" + value) == NumberedLine(key[k + 1..], value)
  {
    var line, n := key + "=" + value, |key|;
    FirstAt(line, "=", n);
    if '_' !in key {
      if '_' in value {
        var k :| 0 <= k < |value| && value[k] == '_';
        assert line[n + 1 + k] == '_';
        LaterUnderscore(line, n);
      } else {
        FreeIfApart(line, "_");
        assert line[..n] == key && line[n + 1..] == value;
      }
    }
    forall k | 0 <= k < n && key[k] == '_' && '_' !in key[..k]
      ensures ReadLine(line) == NumberedLine(key[k + 1..], value)
    {
      assert forall i :: 0 <= i < k ==> line[i] == key[..k][i];
      FirstAt(line, "_", k);
      assert line[k + 1..n] == key[k + 1..] && line[n + 1..] == value;
    }
  }

  /** A line without `=`, or with nothing before it, is passed over. */
  lemma LineIsSkipped(line: string)
    ensures ReadLine(line).Skipped? <==> '=' !in line || line[0] == '='
  {
    if '=' !in line {
      NoEqualsIsSkipped(line);
    } else if line[0] == '=' {
      FirstAt(line, "=", 0);
    } else {
      var e := IndexOf(line, "=", 0);
      if e <= 0 {
        var k :| 0 <= k < |line| && line[k] == '=';
        assert line[k..k + 1] == "=";
        assert OccursAt(line, "=", k);
        assert e == 0;
        OccursAtChars(line, "=", 0);
      }
    }
  }

  function NumberedLine(number: string, value: string): LineResult {
    match ParseInt32(number)
    case None => Threw
    case Some(id) => Accepted(Update(id, value))
  }

  lemma FirstAt(s: string, c: string, n: nat)
    requires |c| == 1 && n < |s| && s[n] == c[0] && forall i :: 0 <= i < n ==> s[i] != c[0]
    ensures IndexOf(s, c, 0) == n
  {
    assert s[n..n + 1] == c;
    assert OccursAt(s, c, n);
    forall i | 0 <= i < n ensures !OccursAt(s, c, i) {
      if OccursAt(s, c, i) { OccursAtChars(s, c, i); }
    }
  }

  lemma LaterUnderscore(line: string, n: nat)
    requires n < |line| && '_' in line && forall i :: 0 <= i <= n ==> line[i] != '_'
    ensures IndexOf(line, "_", 0) > n
  {
    var k :| 0 <= k < |line| && line[k] == '_';
    assert line[k..k + 1] == "_";
    assert OccursAt(line, "_", k);
    var u := IndexOf(line, "_", 0);
    OccursAtChars(line, "_", u);
  }

  predicate NoneThrows(lines: seq<string>) {
    forall k :: 0 <= k < |lines| ==> !ReadLine(lines[k]).Threw?
  }

  lemma {:induction false} LinesThrow(lines: seq<string>)
    ensures ReadLines(lines).Some? <==> NoneThrows(lines)
  {
    if lines != [] {
      LinesThrow(lines[..|lines| - 1]);
      assert lines == lines[..|lines| - 1] + [lines[|lines| - 1]];
    }
  }

  /** The updates of two parts of a file are those of each in turn. */
  lemma {:induction false} LinesAreRead(a: seq<string>, b: seq<string>)
    requires ReadLines(a + b).Some?
    ensures ReadLines(a).Some? && ReadLines(b).Some?
    ensures ReadLines(a + b).value == ReadLines(a).value + ReadLines(b).value
  {
    if b == [] {
      assert a + b == a;
    } else {
      var n := |b| - 1;
      var all, front := a + b, a + b[..n];
      assert all[..|all| - 1] == front && all[|all| - 1] == b[n];
      assert ReadLines(front).Some? && !ReadLine(b[n]).Threw?;
      LinesAreRead(a, b[..n]);
      var first, second, last := ReadLines(a).value, ReadLines(b[..n]).value, UpdatesOf(ReadLine(b[n]));
      assert ReadLines(b).value == second + last;
      assert first + second + last == first + (second + last);
    }
  }

  /** One line alone. */
  lemma OneLineIsRead(line: string)
    ensures ReadLines([line]) == if ReadLine(line).Threw? then None else Some(UpdatesOf(ReadLine(line)))
  {
    assert [line][..0] == [] && [line][..1] == [line];
    assert ReadLines([line][..0]) == Some([]);
    OneMoreLine([line], 0, []);
    assert [] + UpdatesOf(ReadLine(line)) == UpdatesOf(ReadLine(line));
  }

  // --- the file and its name ------------------------------------------------------------------------

  /** The language of a file is what stands before the first dot of its name. */
  lemma LanguageIsSent(base: string, ending: string, contents: string)
    requires Apart(base, ".';") && ReadLines(Lines(contents)).Some?
    ensures '.' !in base && '\'' !in base && ';' !in base
    ensures Sent(base + "." + ending, contents) == Some(Batch(base, ReadLines(Lines(contents)).value))
  {
    assert '.' in ".';" && '\'' in ".';" && ';' in ".';";
    FirstAt(base + "." + ending, ".", |base|);
    assert (base + "." + ending)[..|base|] == base;
  }

  /**
    End to end: a file whose name is a language followed by a dot and any ending sends a batch that stores, in exactly
    the rows with an accepted line, the value of the last such line as the text of that language, and nothing else.
    */
  lemma FileIsStoredUnderItsName(base: string, ending: string, contents: string, rows: Rows)
    requires Apart(base, ".';") && ReadLines(Lines(contents)).Some?
    ensures Sent(base + "." + ending, contents).Some?
    ensures var us := ReadLines(Lines(contents)).value;
            var after := RunBatch(Sent(base + "." + ending, contents).value, rows);
            && after.Some? && after.value.Keys == rows.Keys
            && (forall id :: id in rows && (forall k :: 0 <= k < |us| ==> us[k].id != id) ==>
                  after.value[id] == rows[id])
            && (forall k :: 0 <= k < |us| && us[k].id in rows && (forall j :: k < j < |us| ==> us[j].id != us[k].id) ==>
                  after.value[us[k].id] == rows[us[k].id][base := us[k].value])
  {
    var us := ReadLines(Lines(contents)).value;
    LanguageIsSent(base, ending, contents);
    FileIsImported(base, contents, rows);
    forall id | forall k :: 0 <= k < |us| ==> us[k].id != id ensures LastValue(us, id).None? {
      NoValue(us, id);
    }
    forall k | 0 <= k < |us| && forall j :: k < j < |us| ==> us[j].id != us[k].id
      ensures LastValue(us, us[k].id) == Some(us[k].value)
    {
      LastOne(us, k);
    }
  }

  /** Nothing is sent exactly when the name has no dot or some line is an exception. */
  lemma NothingIsSent(fileName: string, contents: string)
    ensures Sent(fileName, contents).None? <==> '.' !in fileName || !NoneThrows(Lines(contents))
  {
    LinesThrow(Lines(contents));
    if '.' !in fileName {
      FreeIfApart(fileName, ".");
    } else {
      var k :| 0 <= k < |fileName| && fileName[k] == '.';
      assert fileName[k..k + 1] == ".";
      assert OccursAt(fileName, ".", k);
    }
  }

  lemma {:induction false} NoValue(us: seq<Update>, id: int)
    requires forall k :: 0 <= k < |us| ==> us[k].id != id
    ensures LastValue(us, id).None?
  {
    if us != [] { NoValue(us[..|us| - 1], id); }
  }

  lemma {:induction false} LastOne(us: seq<Update>, k: nat)
    requires k < |us| && forall j :: k < j < |us| ==> us[j].id != us[k].id
    ensures LastValue(us, us[k].id) == Some(us[k].value)
    decreases |us|
  {
    if k < |us| - 1 { LastOne(us[..|us| - 1], k); }
  }
}
