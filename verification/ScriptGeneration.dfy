/**
  The generator that turns a list of schema statements into one upgrade script per database engine. `Generate` follows
  the original's nested loops, its three failure exits and its final write loop, for any list of engines with distinct
  names; the functions before it are the per-engine fold it refines, and the lemmas after it say what the scripts are.
  */
module ScriptGeneration {
  import opened Wrappers
  import opened Text

  datatype Statement =
    | AddColumn(table: string, name: string, dataType: string, nullable: bool)
    | RenameColumn(table: string, oldName: string, newName: string, dataType: string, nullable: bool, default: string)
    | CreateIndex(name: string, table: string, unique: bool, clustered: bool, columns: seq<string>)
    | DropColumnObjects(table: string, column: string)
    | RawSQL(text: string, engines: seq<string>)
    | UnknownStatement

  /** An engine's generator; `generate` gives none when the original's method throws. */
  datatype Generator = Generator(name: string, separator: string, generate: Statement -> Option<seq<string>>)

  function TrimAll(ps: seq<string>): seq<string> {
    seq(|ps|, i requires 0 <= i < |ps| => Trim(ps[i]))
  }

  /** The texts an engine contributes for a statement; none when generating them fails. */
  function Pieces(g: Generator, st: Statement): Option<seq<string>> {
    if st.UnknownStatement? then None
    else
      match g.generate(st)
      case None => None
      case Some(ps) =>
        if !st.RawSQL? then Some(ps)
        else if exists i :: 0 <= i < |ps| && EndsWith(Trim(ps[i]), ";") then None
        else Some(TrimAll(ps))
  }

  /** Whether the engine's texts make the original set `found`. */
  predicate Finds(g: Generator, st: Statement) {
    var texts := g.generate(st);
    texts.Some? && exists i :: 0 <= i < |texts.value| && (st.RawSQL? ==> texts.value[i] != "")
  }

  /** The statement is accepted: every engine generates it and some engine has a text for it. */
  predicate Acceptable(gs: seq<Generator>, st: Statement) {
    && (forall k :: 0 <= k < |gs| ==> Pieces(gs[k], st).Some?)
    && (exists k :: 0 <= k < |gs| && Finds(gs[k], st))
  }

  predicate AllAcceptable(gs: seq<Generator>, sts: seq<Statement>) {
    forall i :: 0 <= i < |sts| ==> Acceptable(gs, sts[i])
  }

  /** All the texts of one engine, in order. */
  function AllPieces(g: Generator, sts: seq<Statement>): seq<string> {
    if sts == [] then []
    else AllPieces(g, sts[..|sts| - 1]) + Pieces(g, sts[|sts| - 1]).GetOr([])
  }

  /** One engine's script: its texts, each followed by its separator. */
  function Script(g: Generator, sts: seq<Statement>): string {
    Terminated(AllPieces(g, sts), g.separator)
  }

  predicate DistinctNames(gs: seq<Generator>) {
    forall i, j :: 0 <= i < j < |gs| ==> gs[i].name != gs[j].name
  }

  function FileName(engine: string): string {
    "UpgradeXtoY" + engine + ".sql"
  }

  /** ASCII encoding: other characters become question marks. */
  function Ascii(s: string): string {
    seq(|s|, i requires 0 <= i < |s| => if s[i] < '\U{80}' then s[i] else '?')
  }

  /** The scripts of the listed engines, by name. */
  function Scripts(gs: seq<Generator>, sts: seq<Statement>): map<string, string> {
    if gs == [] then map[]
    else
      var g := gs[|gs| - 1];
      Scripts(gs[..|gs| - 1], sts)[g.name := Script(g, sts)]
  }

  /** The dictionary after `i` statements: empty before the first one, then an entry for every engine. */
  function Dictionary(gs: seq<Generator>, sts: seq<Statement>): map<string, string> {
    if sts == [] then map[] else Scripts(gs, sts)
  }

  lemma {:induction false} ScriptsHas(gs: seq<Generator>, sts: seq<Statement>, name: string)
    requires DistinctNames(gs)
    ensures name in Scripts(gs, sts) <==> exists k :: 0 <= k < |gs| && gs[k].name == name
    ensures forall k :: 0 <= k < |gs| && gs[k].name == name ==> Scripts(gs, sts)[name] == Script(gs[k], sts)
  {
    if gs != [] {
      var n := |gs| - 1;
      ScriptsHas(gs[..n], sts, name);
      assert forall k :: 0 <= k < n ==> gs[..n][k] == gs[k];
      if name in Scripts(gs[..n], sts) {
        var k :| 0 <= k < n && gs[..n][k].name == name;
        assert gs[k].name == name;
      }
    }
  }

  lemma OneMoreStatement(g: Generator, sts: seq<Statement>, i: nat)
    requires i < |sts|
    ensures Script(g, sts[..i + 1])
         == Script(g, sts[..i]) + Terminated(Pieces(g, sts[i]).GetOr([]), g.separator)
  {
    assert sts[..i + 1][..i] == sts[..i];
    TerminatedAppend(AllPieces(g, sts[..i]), Pieces(g, sts[i]).GetOr([]), g.separator);
  }

  lemma EntrySoFar(gs: seq<Generator>, sts: seq<Statement>, i: nat, j: nat)
    requires i < |sts| && j < |gs| && DistinctNames(gs)
    ensures var before := Dictionary(gs, sts[..i]) + Scripts(gs[..j], sts[..i + 1]);
            (if gs[j].name in before then before[gs[j].name] else "") == Script(gs[j], sts[..i])
  {
    var name := gs[j].name;
    forall k | 0 <= k < j ensures gs[..j][k].name != name {}
    ScriptsHas(gs[..j], sts[..i + 1], name);
    assert name !in Scripts(gs[..j], sts[..i + 1]);
    ScriptsHas(gs, sts[..i], name);
    assert name in Scripts(gs, sts[..i]);
    if i == 0 {
      assert sts[..i] == [] && Script(gs[j], sts[..i]) == "";
    }
  }

  lemma OverrideLast(a: map<string, string>, b: map<string, string>, name: string, value: string)
    ensures (a + b)[name := value] == a + b[name := value]
  {
  }

  /** Appending the next engine's texts to its entry, or starting the entry with them, extends its script. */
  lemma OneMoreEngine(gs: seq<Generator>, sts: seq<Statement>, i: nat, j: nat)
    requires i < |sts| && j < |gs| && DistinctNames(gs)
    ensures var before := Dictionary(gs, sts[..i]) + Scripts(gs[..j], sts[..i + 1]);
            var g := gs[j];
            var added := Terminated(Pieces(g, sts[i]).GetOr([]), g.separator);
            before[g.name := (if g.name in before then before[g.name] else "") + added]
            == Dictionary(gs, sts[..i]) + Scripts(gs[..j + 1], sts[..i + 1])
  {
    EntrySoFar(gs, sts, i, j);
    OneMoreStatement(gs[j], sts, i);
    assert gs[..j + 1][..j] == gs[..j];
    OverrideLast(Dictionary(gs, sts[..i]), Scripts(gs[..j], sts[..i + 1]), gs[j].name, Script(gs[j], sts[..i + 1]));
  }

  /** After all engines the older entries are all replaced. */
  lemma AllEngines(gs: seq<Generator>, sts: seq<Statement>, i: nat)
    requires i < |sts| && DistinctNames(gs)
    ensures Dictionary(gs, sts[..i]) + Scripts(gs[..|gs|], sts[..i + 1]) == Dictionary(gs, sts[..i + 1])
  {
    assert gs[..|gs|] == gs;
    forall name | name in Dictionary(gs, sts[..i]) ensures name in Scripts(gs, sts[..i + 1]) {
      ScriptsHas(gs, sts[..i], name);
      ScriptsHas(gs, sts[..i + 1], name);
    }
  }

  ghost predicate SameAt(f: string, before: map<string, string>, after: map<string, string>) {
    (f in before <==> f in after) && (f in before ==> before[f] == after[f])
  }

  /** The directory after writing the scripts: one encoded file per script, every other file as it was. */
  ghost predicate IsUpdate(scripts: map<string, string>, before: map<string, string>, after: map<string, string>) {
    && (forall n :: n in scripts ==> FileName(n) in after && after[FileName(n)] == Ascii(scripts[n]))
    && (forall f :: (forall n :: n in scripts ==> f != FileName(n)) ==> SameAt(f, before, after))
  }

  /** What a successful run leaves: for a non-empty list one file per engine, and nothing else changed. */
  ghost predicate AreWritten(
      gs: seq<Generator>, sts: seq<Statement>, before: map<string, string>, after: map<string, string>)
  {
    && (sts != [] ==> forall k :: 0 <= k < |gs| ==>
          FileName(gs[k].name) in after && after[FileName(gs[k].name)] == Ascii(Script(gs[k], sts)))
    && (forall f :: (sts == [] || forall k :: 0 <= k < |gs| ==> f != FileName(gs[k].name)) ==> SameAt(f, before, after))
  }

  lemma DictionaryIsWritten(gs: seq<Generator>, sts: seq<Statement>,
                            before: map<string, string>, after: map<string, string>)
    requires DistinctNames(gs) && IsUpdate(Dictionary(gs, sts), before, after)
    ensures AreWritten(gs, sts, before, after)
  {
    forall k | 0 <= k < |gs| && sts != []
      ensures FileName(gs[k].name) in after && after[FileName(gs[k].name)] == Ascii(Script(gs[k], sts))
    {
      ScriptsHas(gs, sts, gs[k].name);
    }
    forall f | sts == [] || forall k :: 0 <= k < |gs| ==> f != FileName(gs[k].name) ensures SameAt(f, before, after) {
      forall n | n in Dictionary(gs, sts) ensures f != FileName(n) {
        ScriptsHas(gs, sts, n);
      }
    }
  }

  class ScriptGenerator {
    const statements: seq<Statement>
    /** The output directory: file names and contents. */
    var files: map<string, string>

    constructor (statements: seq<Statement>, files: map<string, string>)
      ensures this.statements == statements && this.files == files
    {
      this.statements, this.files := statements, files;
    }

    /** Writes one script per engine; `ok` is false when the original throws. */
    method Generate(generators: seq<Generator>) returns (ok: bool)
      requires DistinctNames(generators)
      modifies this
      ensures ok <==> AllAcceptable(generators, statements)
      ensures !ok ==> files == old(files)
      ensures ok ==> AreWritten(generators, statements, old(files), files)
    {
      var scripts := BuildScripts(generators);
      if scripts.None? {
        return false;
      }
      WriteScripts(scripts.value);
      DictionaryIsWritten(generators, statements, old(files), files);
      ok := true;
    }

    /** The nested loops that fill the dictionary; none when an exception is thrown. */
    method BuildScripts(generators: seq<Generator>) returns (r: Option<map<string, string>>)
      requires DistinctNames(generators)
      ensures r == if AllAcceptable(generators, statements) then Some(Dictionary(generators, statements)) else None
    {
      var scripts := map[];
      for i := 0 to |statements|
        invariant scripts == Dictionary(generators, statements[..i])
        invariant forall k :: 0 <= k < i ==> Acceptable(generators, statements[k])
      {
        var threw;
        threw, scripts := AddStatement(generators, i, scripts);
        if threw {
          return None;
        }
      }
      assert statements[..|statements|] == statements;
      r := Some(scripts);
    }

    /** One round of the outer loop: adds every engine's texts for a statement to its script. */
    method AddStatement(generators: seq<Generator>, i: nat, before: map<string, string>)
        returns (threw: bool, scripts: map<string, string>)
      requires DistinctNames(generators) && i < |statements|
      requires before == Dictionary(generators, statements[..i])
      ensures threw <==> !Acceptable(generators, statements[i])
      ensures !threw ==> scripts == Dictionary(generators, statements[..i + 1])
    {
      threw, scripts := false, before;
      var found := false;
      for j := 0 to |generators|
        invariant scripts == before + Scripts(generators[..j], statements[..i + 1])
        invariant found <==> exists k :: 0 <= k < j && Finds(generators[k], statements[i])
        invariant forall k :: 0 <= k < j ==> Pieces(generators[k], statements[i]).Some?
      {
        var generator := generators[j];
        var sqlString, foundHere;
        threw, sqlString, foundHere := GenerateOne(generator, statements[i]);
        if threw {
          return;
        }
        found := found || foundHere;
        OneMoreEngine(generators, statements, i, j);
        scripts := AppendTo(scripts, generator.name, sqlString);
      }
      AllEngines(generators, statements, i);
      threw := !found;
    }

    /** Appends to an engine's entry of the dictionary, or starts it. */
    static method AppendTo(before: map<string, string>, name: string, sqlString: string)
        returns (scripts: map<string, string>)
      ensures scripts == before[name := (if name in before then before[name] else "") + sqlString]
    {
      if name in before {
        scripts := before[name := before[name] + sqlString];
      } else {
        assert "" + sqlString == sqlString;
        scripts := before[name := sqlString];
      }
    }

    /** The body of the inner loop: the texts of one engine for one statement. */
    static method GenerateOne(generator: Generator, statement: Statement)
        returns (threw: bool, sqlString: string, found: bool)
      ensures threw <==> Pieces(generator, statement).None?
      ensures !threw ==> sqlString == Terminated(Pieces(generator, statement).value, generator.separator)
      ensures !threw ==> (found <==> Finds(generator, statement))
    {
      threw, sqlString, found := false, "", false;
      if statement.UnknownStatement? {
        threw := true;
        return;
      }
      var generated := generator.generate(statement);
      if generated.None? {
        threw := true;
        return;
      }
      if statement.RawSQL? {
        threw, sqlString, found := JoinRaw(generated.value, generator.separator);
      } else {
        sqlString, found := JoinAll(generated.value, generator.separator);
      }
    }

    /** The loop for raw statements: texts are trimmed, and one that ends in a semicolon is an exception. */
    static method JoinRaw(texts: seq<string>, separator: string) returns (threw: bool, sqlString: string, found: bool)
      ensures threw <==> exists i :: 0 <= i < |texts| && EndsWith(Trim(texts[i]), ";")
      ensures !threw ==> sqlString == Terminated(TrimAll(texts), separator)
      ensures !threw ==> (found <==> exists i :: 0 <= i < |texts| && texts[i] != "")
    {
      threw, sqlString, found := false, "", false;
      for k := 0 to |texts|
        invariant forall i :: 0 <= i < k ==> !EndsWith(Trim(texts[i]), ";")
        invariant sqlString == Terminated(TrimAll(texts[..k]), separator)
        invariant found <==> exists i :: 0 <= i < k && texts[i] != ""
      {
        if |texts[k]| > 0 {
          found := true;
        }
        var trimmedResult := Trim(texts[k]);
        if EndsWith(trimmedResult, ";") {
          threw := true;
          return;
        }
        assert TrimAll(texts[..k + 1]) == TrimAll(texts[..k]) + [trimmedResult];
        TerminatedOneMore(TrimAll(texts[..k]), trimmedResult, separator);
        sqlString := sqlString + trimmedResult;
        sqlString := sqlString + separator;
      }
      assert texts[..|texts|] == texts;
    }

    /** The loop for the other statements. */
    static method JoinAll(texts: seq<string>, separator: string) returns (sqlString: string, found: bool)
      ensures sqlString == Terminated(texts, separator)
      ensures found <==> texts != []
    {
      sqlString, found := "", false;
      for k := 0 to |texts|
        invariant sqlString == Terminated(texts[..k], separator)
        invariant found <==> k > 0
      {
        found := true;
        assert texts[..k + 1] == texts[..k] + [texts[k]];
        TerminatedOneMore(texts[..k], texts[k], separator);
        sqlString := sqlString + texts[k];
        sqlString := sqlString + separator;
      }
      assert texts[..|texts|] == texts;
    }

    /** Replaces or adds one file per entry. */
    method WriteScripts(scripts: map<string, string>)
      modifies this
      ensures IsUpdate(scripts, old(files), files)
    {
      var left := scripts.Keys;
      while left != {}
        invariant left <= scripts.Keys
        invariant forall n :: n in scripts && n !in left ==>
                    FileName(n) in files && files[FileName(n)] == Ascii(scripts[n])
        invariant forall f :: (forall n :: n in scripts ==> f != FileName(n)) ==> SameAt(f, old(files), files)
        decreases |left|
      {
        var engineName :| engineName in left;
        assert engineName in scripts;
        forall n | n in scripts && n != engineName ensures FileName(n) != FileName(engineName) {
          FileNamesDiffer(n, engineName);
        }
        ghost var earlier := files;
        files := files[FileName(engineName) := Ascii(scripts[engineName])];
        forall f | forall n :: n in scripts ==> f != FileName(n) ensures SameAt(f, old(files), files) {
          assert SameAt(f, old(files), earlier);
        }
        left := left - {engineName};
      }
    }
  }

  lemma FileNamesDiffer(a: string, b: string)
    requires a != b
    ensures FileName(a) != FileName(b)
  {
    assert a == FileName(a)[11..|FileName(a)| - 4];
    assert b == FileName(b)[11..|FileName(b)| - 4];
  }

  // --- what the scripts are -------------------------------------------------------------------------

  /** Generating for two lists in turn is generating for each: engine by engine, and in what is accepted. */
  lemma {:induction false} GenerationIsCompositional(
      gs: seq<Generator>, g: Generator, xs: seq<Statement>, ys: seq<Statement>)
    ensures Script(g, xs + ys) == Script(g, xs) + Script(g, ys)
    ensures AllAcceptable(gs, xs + ys) <==> AllAcceptable(gs, xs) && AllAcceptable(gs, ys)
  {
    PiecesAppend(g, xs, ys);
    TerminatedAppend(AllPieces(g, xs), AllPieces(g, ys), g.separator);
    if AllAcceptable(gs, xs + ys) {
      forall i | 0 <= i < |xs| ensures Acceptable(gs, xs[i]) { assert (xs + ys)[i] == xs[i]; }
      forall i | 0 <= i < |ys| ensures Acceptable(gs, ys[i]) { assert (xs + ys)[|xs| + i] == ys[i]; }
    }
  }

  lemma {:induction false} PiecesAppend(g: Generator, xs: seq<Statement>, ys: seq<Statement>)
    ensures AllPieces(g, xs + ys) == AllPieces(g, xs) + AllPieces(g, ys)
  {
    if ys == [] {
      assert xs + ys == xs;
    } else {
      assert (xs + ys)[..|xs + ys| - 1] == xs + ys[..|ys| - 1];
      PiecesAppend(g, xs, ys[..|ys| - 1]);
    }
  }

  /** A script is empty before the first statement. */
  lemma ScriptStarts(g: Generator)
    ensures Script(g, []) == ""
  {
    assert [] + [""] == [""];
  }

  /**
    One more statement adds exactly the texts that the engine generates for it, each followed by the separator; those of
    a raw statement are trimmed first.
    */
  lemma ScriptGrows(g: Generator, sts: seq<Statement>, st: Statement, texts: seq<string>, trimmed: seq<string>)
    requires !st.UnknownStatement? && g.generate(st) == Some(texts)
    requires |trimmed| == |texts| && forall k :: 0 <= k < |texts| ==> trimmed[k] == Trim(texts[k])
    ensures !st.RawSQL? ==> Script(g, sts + [st]) == Script(g, sts) + Terminated(texts, g.separator)
    ensures st.RawSQL? && (forall k :: 0 <= k < |texts| ==> !EndsWith(Trim(texts[k]), ";")) ==>
              Script(g, sts + [st]) == Script(g, sts) + Terminated(trimmed, g.separator)
  {
    assert TrimAll(texts) == trimmed;
    var longer, n := sts + [st], |sts|;
    assert longer[..n] == sts && longer[..n + 1] == longer;
    OneMoreStatement(g, longer, n);
  }

  /**
    The three ways to fail, in terms of what the engines generate: a statement is accepted exactly when it is of a known
    kind, no engine throws, no raw text ends in a semicolon once trimmed, and some engine has a text for it.
    */
  lemma AcceptedExactly(gs: seq<Generator>, st: Statement)
    ensures Acceptable(gs, st) <==>
            && !st.UnknownStatement?
            && (forall k :: 0 <= k < |gs| ==> gs[k].generate(st).Some?)
            && (st.RawSQL? ==> forall k :: 0 <= k < |gs| ==> NoneTerminated(gs[k].generate(st).value))
            && exists k :: 0 <= k < |gs| && SomeText(gs[k].generate(st).value, st.RawSQL?)
  {
    forall k | 0 <= k < |gs|
      ensures Pieces(gs[k], st).Some? <==>
              && !st.UnknownStatement? && gs[k].generate(st).Some?
              && (st.RawSQL? ==> NoneTerminated(gs[k].generate(st).value))
      ensures gs[k].generate(st).Some? ==> (Finds(gs[k], st) <==> SomeText(gs[k].generate(st).value, st.RawSQL?))
    {
      if gs[k].generate(st).Some? { FindsText(gs[k], st); }
    }
  }

  lemma FindsText(g: Generator, st: Statement)
    requires g.generate(st).Some?
    ensures Finds(g, st) <==> SomeText(g.generate(st).value, st.RawSQL?)
  {
    var texts := g.generate(st).value;
    if !st.RawSQL? && texts != [] {
      var first := texts[0];
      assert 0 <= 0 < |texts| && texts[0] == first;
    }
  }

  predicate NoneTerminated(texts: seq<string>) {
    forall i :: 0 <= i < |texts| ==> !EndsWith(Trim(texts[i]), ";")
  }

  /** There is a text, and one that is not empty where the statement is raw. */
  predicate SomeText(texts: seq<string>, raw: bool) {
    if raw then exists i :: 0 <= i < |texts| && texts[i] != "" else texts != []
  }

  /** A text is written as it is exactly when it is ASCII; any other character becomes a question mark. */
  lemma AsciiKeeps(s: string)
    ensures Ascii(s) == s <==> forall i :: 0 <= i < |s| ==> s[i] as int < 128
    ensures |Ascii(s)| == |s| && forall i :: 0 <= i < |s| && s[i] as int >= 128 ==> Ascii(s)[i] == '?'
  {
    if Ascii(s) == s {
      forall i | 0 <= i < |s| ensures s[i] as int < 128 { assert Ascii(s)[i] == s[i]; }
    }
  }

  /** A script split at the engine's separator gives back its texts exactly when no text holds or starts a separator. */
  lemma ScriptSplitsIntoPieces(g: Generator, sts: seq<Statement>)
    requires g.separator != ""
    ensures Split(Script(g, sts), g.separator) == AllPieces(g, sts) + [""]
            <==> forall k :: 0 <= k < |AllPieces(g, sts)| ==> Clean(AllPieces(g, sts)[k], g.separator)
  {
    var ps := AllPieces(g, sts);
    SplitInvertsJoin(ps + [""], g.separator);
    assert forall k :: 0 <= k < |ps| ==> (ps + [""])[k] == ps[k];
    assert Free("", g.separator);
  }

  // --- the four engines -----------------------------------------------------------------------------

  /** Whether a raw statement is meant for an engine: one that lists no engines is meant for all. */
  predicate AppliesTo(st: Statement, engine: string)
    requires st.RawSQL?
  {
    st.engines == [] || engine in st.engines
  }

  /** An engine's texts for a raw statement. MySQL demands its separator in a text that holds a semicolon. */
  function RawTexts(engine: string, separator: string, st: Statement): Option<seq<string>>
    requires st.RawSQL?
  {
    if !AppliesTo(st, engine) then Some([])
    else if engine == "MySQL" && IndexOf(st.text, ";", 0) >= 0 && IndexOf(st.text, separator, 0) < 0 then None
    else Some([st.text])
  }

  /** The engines of the original; `render` stands for their texts for the other statements. */
  function Engine(name: string, separator: string, render: (string, Statement) -> seq<string>): Generator {
    Generator(name, separator,
              (st: Statement) => if st.RawSQL? then RawTexts(name, separator, st) else Some(render(name, st)))
  }

  function Engines(render: (string, Statement) -> seq<string>): seq<Generator> {
    [Engine("MSSQL", BLANK_LINE, render), Engine("SQLCE", BLANK_LINE, render),
     Engine("MySQL", ";" + BLANK_LINE, render), Engine("PGSQL", ";" + BLANK_LINE, render)]
  }

  const ENGINE_NAMES: set<string> := {"MSSQL", "SQLCE", "MySQL", "PGSQL"}

  /** The repository's engines meet what `ScriptGenerator` asks of its generators. */
  lemma EngineNamesDiffer(render: (string, Statement) -> seq<string>)
    ensures DistinctNames(Engines(render))
  {
    assert "MSSQL"[1] == 'S' && "SQLCE"[0] == 'S' && "MySQL"[1] == 'y' && "PGSQL"[0] == 'P';
  }

  /** When the four engines accept a raw statement. */
  predicate RawAccepted(st: Statement)
    requires st.RawSQL?
  {
    && st.text != ""
    && (st.engines == [] || exists e :: e in ENGINE_NAMES && e in st.engines)
    && !EndsWith(Trim(st.text), ";")
    && (st.engines == [] || "MySQL" in st.engines ==>
          IndexOf(st.text, ";", 0) < 0 || IndexOf(st.text, ";" + BLANK_LINE, 0) >= 0)
  }

  lemma RawPieces(render: (string, Statement) -> seq<string>, st: Statement, name: string, separator: string)
    requires st.RawSQL?
    ensures var g := Engine(name, separator, render);
            && (Pieces(g, st).Some? <==> RawTexts(name, separator, st).Some?
                                         && !(AppliesTo(st, name) && EndsWith(Trim(st.text), ";")))
            && (Finds(g, st) <==> RawTexts(name, separator, st) == Some([st.text]) && st.text != "")
  {
    var g := Engine(name, separator, render);
    var texts := RawTexts(name, separator, st);
    assert g.generate(st) == texts;
    if texts.Some? && texts.value != [] {
      assert texts.value[0] == st.text;
    }
  }

  /** The exact condition under which the original's four engines accept a raw statement. */
  lemma EnginesAcceptRaw(render: (string, Statement) -> seq<string>, st: Statement)
    requires st.RawSQL?
    ensures Acceptable(Engines(render), st) <==> RawAccepted(st)
  {
    var gs := Engines(render);
    RawPieces(render, st, "MSSQL", BLANK_LINE);
    RawPieces(render, st, "SQLCE", BLANK_LINE);
    RawPieces(render, st, "MySQL", ";" + BLANK_LINE);
    RawPieces(render, st, "PGSQL", ";" + BLANK_LINE);
    assert Acceptable(gs, st) <==>
           && Pieces(gs[0], st).Some? && Pieces(gs[1], st).Some? && Pieces(gs[2], st).Some? && Pieces(gs[3], st).Some?
           && (Finds(gs[0], st) || Finds(gs[1], st) || Finds(gs[2], st) || Finds(gs[3], st));
  }

  /** After a successful run of the original's four engines, each script is in its file, and others are as before. */
  lemma FilesOfEngines(render: (string, Statement) -> seq<string>, sts: seq<Statement>,
                       before: map<string, string>, after: map<string, string>)
    requires sts != [] && AreWritten(Engines(render), sts, before, after)
    ensures var line := "\r\n\r\n";
            && IsFile(after, "UpgradeXtoYMSSQL.sql", Script(Engine("MSSQL", line, render), sts))
            && IsFile(after, "UpgradeXtoYSQLCE.sql", Script(Engine("SQLCE", line, render), sts))
            && IsFile(after, "UpgradeXtoYMySQL.sql", Script(Engine("MySQL", ";" + line, render), sts))
            && IsFile(after, "UpgradeXtoYPGSQL.sql", Script(Engine("PGSQL", ";" + line, render), sts))
    ensures var own := {"UpgradeXtoYMSSQL.sql", "UpgradeXtoYSQLCE.sql", "UpgradeXtoYMySQL.sql", "UpgradeXtoYPGSQL.sql"};
            forall f :: f !in own ==> SameAt(f, before, after)
  {
    var gs := Engines(render);
    assert BLANK_LINE == "\r\n\r\n";
    assert FileName(gs[0].name) == "UpgradeXtoYMSSQL.sql" && FileName(gs[1].name) == "UpgradeXtoYSQLCE.sql";
    assert FileName(gs[2].name) == "UpgradeXtoYMySQL.sql" && FileName(gs[3].name) == "UpgradeXtoYPGSQL.sql";
    forall f | f !in {"UpgradeXtoYMSSQL.sql", "UpgradeXtoYSQLCE.sql", "UpgradeXtoYMySQL.sql", "UpgradeXtoYPGSQL.sql"}
      ensures SameAt(f, before, after)
    {
      assert forall k :: 0 <= k < |gs| ==> k in {0, 1, 2, 3} && f != FileName(gs[k].name);
    }
  }

  predicate IsFile(files: map<string, string>, name: string, script: string) {
    name in files && files[name] == Ascii(script)
  }

  /** An accepted raw statement adds its trimmed text to the scripts of the engines it lists, or of all of them. */
  lemma RawIsAdded(render: (string, Statement) -> seq<string>, sts: seq<Statement>, st: Statement,
                   name: string, separator: string)
    requires st.RawSQL? && Engine(name, separator, render) in Engines(render) && RawAccepted(st)
    ensures var g := Engine(name, separator, render);
            Script(g, sts + [st])
            == Script(g, sts) + if st.engines == [] || name in st.engines then Trim(st.text) + separator else ""
  {
    var g := Engine(name, separator, render);
    var texts := RawTexts(name, separator, st);
    assert texts.Some? by { RawTextsExist(render, st, name, separator); }
    var trimmed := TrimAll(texts.value);
    ScriptGrows(g, sts, st, texts.value, trimmed);
    assert [] + [""] == [""] && Terminated([], separator) == "";
    TerminatedOneMore([], Trim(st.text), separator);
    assert [] + [Trim(st.text)] == [Trim(st.text)];
    assert AppliesTo(st, name) ==> trimmed == [Trim(st.text)];
  }

  lemma RawTextsExist(render: (string, Statement) -> seq<string>, st: Statement, name: string, separator: string)
    requires st.RawSQL? && Engine(name, separator, render) in Engines(render) && RawAccepted(st)
    ensures RawTexts(name, separator, st).Some? && Engine(name, separator, render).generate(st).Some?
  {
    var g := Engine(name, separator, render);
    var gs := Engines(render);
    assert g.name == name && g.separator == separator;
    assert forall k :: 0 <= k < 4 && gs[k].name == "MySQL" ==> gs[k].separator == ";" + BLANK_LINE;
  }
}
