/**
  The importer that turns a translation file into one batch of quoted SQL updates. `ImportFile` follows the original;
  the rest shows that a SQL lexer reads the batch as exactly the accepted lines, and what the batch does to the table.
  */
module TranslationImport {
  import opened Wrappers
  import opened Text
  import opened Decimal

  datatype Update = Update(id: int, value: string)

  datatype LineResult = Skipped | Accepted(update: Update) | Threw

  /** Splits at every carriage return and at every line feed. */
  function Lines(s: string): (r: seq<string>)
    ensures |r| > 0
  {
    if s == "" then [""]
    else
      var rest := Lines(s[1..]);
      if s[0] in NEW_LINE then [""] + rest else [[s[0]] + rest[0]] + rest[1..]
  }

  function ReadLine(line: string): LineResult {
    var equalsPos := IndexOf(line, "=", 0);
    if line == "" || equalsPos <= 0 then Skipped
    else
      var underscorePos := IndexOf(line, "_", 0);
      if equalsPos - underscorePos - 1 < 0 then Threw
      else
        match ParseInt32(line[underscorePos + 1..equalsPos])
        case None => Threw
        case Some(id) => Accepted(Update(id, line[equalsPos + 1..]))
  }

  /** The updates of the accepted lines, in order; none when a line makes the original throw. */
  function ReadLines(lines: seq<string>): Option<seq<Update>> {
    if lines == [] then Some([])
    else
      match ReadLines(lines[..|lines| - 1])
      case None => None
      case Some(us) =>
        var last := ReadLine(lines[|lines| - 1]);
        if last.Threw? then None else Some(us + UpdatesOf(last))
  }

  function UpdatesOf(r: LineResult): seq<Update> {
    if r.Accepted? then [r.update] else []
  }

  function Statement(language: string, u: Update): string {
    "update hm_tran_strings set language_" + language + " = '" + Replace(u.value, "'", "''")
    + "' where stringid = " + PrintInt(u.id)
  }

  function Statements(language: string, us: seq<Update>): seq<string> {
    seq(|us|, i requires 0 <= i < |us| => Statement(language, us[i]))
  }

  function Batch(language: string, us: seq<Update>): string {
    Terminated(Statements(language, us), ";")
  }

  /** The file name up to its first dot; none when there is no dot. */
  function Language(fileName: string): Option<string> {
    var dot := IndexOf(fileName, ".", 0);
    if dot < 0 then None else Some(fileName[..dot])
  }

  /** What is sent to the server; none when an exception is thrown before that. */
  function Sent(fileName: string, contents: string): Option<string> {
    match Language(fileName)
    case None => None
    case Some(language) =>
      match ReadLines(Lines(contents))
      case None => None
      case Some(us) => Some(Batch(language, us))
  }

  lemma {:induction false} ThrowsLater(lines: seq<string>, n: nat)
    requires n <= |lines| && ReadLines(lines[..n]).None?
    ensures ReadLines(lines).None?
    decreases |lines| - n
  {
    if n == |lines| {
      assert lines[..n] == lines;
    } else {
      assert lines[..n + 1][..n] == lines[..n];
      ThrowsLater(lines, n + 1);
    }
  }

  /** Builds the batch sent to the server; none when an exception is thrown before that. */
  method ImportFile(fileName: string, contents: string) returns (sent: Option<string>)
    ensures sent == Sent(fileName, contents)
  {
    var dot := IndexOf(fileName, ".", 0);
    if dot < 0 {
      return None;
    }
    var language := fileName[..dot];
    var lines := Lines(contents);
    var completeStatement := "";
    ghost var us: seq<Update> := [];
    for i := 0 to |lines|
      invariant ReadLines(lines[..i]) == Some(us)
      invariant completeStatement == Batch(language, us)
    {
      OneMoreLine(lines, i, us);
      var threw, text, added := ImportLine(language, lines[i]);
      if threw {
        ThrowsLater(lines, i + 1);
        return None;
      }
      BatchAppend(language, us, added);
      completeStatement := completeStatement + text;
      us := us + added;
    }
    assert lines[..|lines|] == lines;
    sent := Some(completeStatement);
  }

  lemma OneMoreLine(lines: seq<string>, i: nat, us: seq<Update>)
    requires i < |lines| && ReadLines(lines[..i]) == Some(us)
    ensures var r := ReadLine(lines[i]);
            ReadLines(lines[..i + 1]) == if r.Threw? then None else Some(us + UpdatesOf(r))
  {
    assert lines[..i + 1][..i] == lines[..i];
  }

  /** The body of the loop: what one line adds to the batch. */
  method ImportLine(language: string, line: string) returns (threw: bool, text: string, ghost added: seq<Update>)
    ensures threw <==> ReadLine(line).Threw?
    ensures !threw ==> added == UpdatesOf(ReadLine(line)) && text == Batch(language, added)
  {
    threw, text, added := false, "", [];
    EmptyBatch(language);
    if line == "" {
      return;
    }
    var equalsPos := IndexOf(line, "=", 0);
    if equalsPos <= 0 {
      return;
    }
    var underscorePos := IndexOf(line, "_", 0);
    if equalsPos - underscorePos - 1 < 0 {
      threw := true;
      return;
    }
    var stringIndex := line[underscorePos + 1..underscorePos + 1 + (equalsPos - underscorePos - 1)];
    var value := line[equalsPos + 1..];
    var stringID := ParseInt32(stringIndex);
    if stringID.None? {
      threw := true;
      return;
    }
    value := Replace(value, "'", "''");
    var sqlStatement := "update hm_tran_strings set language_" + language + " = '" + value
                        + "' where stringid = " + PrintInt(stringID.value);
    text := sqlStatement + ";";
    added := [Update(stringID.value, line[equalsPos + 1..])];
    SingleBatch(language, added[0]);
  }

  lemma EmptyBatch(language: string)
    ensures Batch(language, []) == ""
  {
    assert Statements(language, []) + [""] == [""];
  }

  lemma SingleBatch(language: string, u: Update)
    ensures Batch(language, [u]) == Statement(language, u) + ";"
  {
    assert Statements(language, [u]) == [Statement(language, u)];
    TerminatedFirst(Statements(language, [u]), ";");
    EmptyBatch(language);
  }

  lemma BatchAppend(language: string, a: seq<Update>, b: seq<Update>)
    ensures Batch(language, a + b) == Batch(language, a) + Batch(language, b)
  {
    StatementsAppend(language, a, b);
    TerminatedAppend(Statements(language, a), Statements(language, b), ";");
  }

  lemma StatementsAppend(language: string, a: seq<Update>, b: seq<Update>)
    ensures Statements(language, a + b) == Statements(language, a) + Statements(language, b)
  {
  }
}
