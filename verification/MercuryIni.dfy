/**
  The reader for one section of a Mercury ini file: a single pass with a flag and an early exit. The method refines a
  description in two steps, and `ReadsPrintedFile` says what it returns for every file in the usual layout: the
  settings of the first section with that name, or of the next section that has any when that one has none.
  */
module MercuryIni {
  import opened Wrappers
  import opened Text

  datatype Setting = Setting(name: string, value: string)

  predicate IsHeader(line: string) {
    StartsWith(line, "[")
  }

  predicate Opens(line: string, section: string) {
    StartsWith(line, "[" + section + "]")
  }

  /** A comment is cut off the value unless it is all of it. */
  function WithoutComment(value: string): string {
    var hash := IndexOf(value, "#", 0);
    if hash > 0 then value[..hash] else value
  }

  /** The setting on a trimmed line, if it has a colon. */
  function LineSetting(line: string): Option<Setting> {
    var colon := IndexOf(line, ":", 0);
    if colon < 0 then None
    else Some(Setting(Trim(line[..colon]), WithoutComment(Trim(line[colon + 1..]))))
  }

  /** The lines from the first header of the section on. */
  function FromHeader(lines: seq<string>, section: string): seq<string> {
    if lines == [] || Opens(Trim(lines[0]), section) then lines else FromHeader(lines[1..], section)
  }

  /** The settings up to the next header, where headers before the first setting are passed over. */
  function Collect(lines: seq<string>, some: bool): seq<Setting> {
    if lines == [] then []
    else
      var line := Trim(lines[0]);
      if StartsWith(line, "#") then Collect(lines[1..], some)
      else if IsHeader(line) && some then []
      else
        match LineSetting(line)
        case None => Collect(lines[1..], some)
        case Some(s) => [s] + Collect(lines[1..], true)
  }

  /** What a file with these contents gives for a section. */
  function Read(content: string, section: string): seq<Setting> {
    Collect(FromHeader(Split(content, NEW_LINE), section), false)
  }

  /** What a pass over the remaining lines adds to the result. */
  function Rest(lines: seq<string>, section: string, correctSection: bool, some: bool): seq<Setting> {
    Collect(if correctSection then lines else FromHeader(lines, section), some)
  }

  /** The original's loop over the lines of the file's contents. */
  method GetSettings(content: string, section: string) returns (result: seq<Setting>)
    ensures result == Read(content, section)
  {
    var lines := Split(content, NEW_LINE);
    result := [];
    var correctSection := false;
    assert lines[0..] == lines;
    for i := 0 to |lines|
      invariant !correctSection ==> result == []
      invariant result + Rest(lines[i..], section, correctSection, result != []) == Rest(lines, section, false, false)
    {
      assert lines[i..][0] == lines[i] && lines[i..][1..] == lines[i + 1..];
      var trimmedLine := Trim(lines[i]);
      if StartsWith(trimmedLine, "#") {
        CommentIsNoHeader(trimmedLine, section);
        continue;
      }
      if StartsWith(trimmedLine, "[") {
        if |result| > 0 {
          assert result + [] == result;
          return;
        }
        if StartsWith(trimmedLine, "[" + section + "]") {
          correctSection := true;
        }
      }
      if !correctSection {
        SkippedLine(lines[i..], section, trimmedLine);
        continue;
      }
      var setting := ReadSetting(trimmedLine);
      if setting.None? {
        continue;
      }
      Associate(result, setting.value, Collect(lines[i + 1..], true));
      result := result + [setting.value];
    }
    assert result + [] == result;
  }

  /** The part of the loop body after the section check; none when the line has no colon. */
  method ReadSetting(trimmedLine: string) returns (setting: Option<Setting>)
    ensures setting == LineSetting(trimmedLine)
  {
    var colonPos := IndexOf(trimmedLine, ":", 0);
    if colonPos < 0 {
      return None;
    }
    var settingName := Trim(trimmedLine[..colonPos]);
    var settingValue := Trim(trimmedLine[colonPos + 1..]);
    var hashPos := IndexOf(settingValue, "#", 0);
    if hashPos > 0 {
      settingValue := settingValue[..hashPos];
    }
    setting := Some(Setting(settingName, settingValue));
  }

  lemma OpeningIsHeader(line: string, section: string)
    requires Opens(line, section)
    ensures IsHeader(line)
  {
    assert line[..1] == ("[" + section + "]")[..1] == "[";
  }

  lemma SkippedLine(lines: seq<string>, section: string, line: string)
    requires lines != [] && line == Trim(lines[0])
    requires !StartsWith(line, "[") || !StartsWith(line, "[" + section + "]")
    ensures FromHeader(lines, section) == FromHeader(lines[1..], section)
  {
    if Opens(line, section) {
      OpeningIsHeader(line, section);
    }
  }

  lemma Associate(a: seq<Setting>, s: Setting, b: seq<Setting>)
    ensures a + ([s] + b) == a + [s] + b
  {
  }

  lemma CommentIsNoHeader(line: string, section: string)
    requires StartsWith(line, "#")
    ensures !Opens(line, section)
  {
    assert line[0] == '#' && ("[" + section + "]")[0] == '[';
  }

  // --- files ----------------------------------------------------------------------------------------

  /** A setting with white space around its key and value and perhaps a comment, or a line that holds no setting. */
  datatype Line =
    | Entry(indent: string, key: string, keyGap: string, lead: string, value: string, gap: string, comment: string,
            trail: string)
    | Note(text: string)

  /** A section; white space may stand before its header, and a comment or other text without a colon after it. */
  datatype Section = Section(indent: string, name: string, tail: string, lines: seq<Line>)

  function PrintLine(line: Line): string {
    match line
    case Entry(indent, key, keyGap, lead, value, gap, comment, trail) =>
      indent + (key + keyGap + ":" + (lead + (value + (gap + comment))) + trail)
    case Note(text) => text
  }

  function PrintLines(lines: seq<Line>): seq<string> {
    seq(|lines|, i requires 0 <= i < |lines| => PrintLine(lines[i]))
  }

  function Header(s: Section): string {
    s.indent + ("[" + s.name + "]" + s.tail)
  }

  function SectionLines(s: Section): seq<string> {
    [Header(s)] + PrintLines(s.lines)
  }

  function SectionsLines(secs: seq<Section>): seq<string> {
    if secs == [] then [] else SectionLines(secs[0]) + SectionsLines(secs[1..])
  }

  /** The file: some lines before the first section, then the sections. */
  function PrintFile(preamble: seq<Line>, secs: seq<Section>): string
    requires secs != []
  {
    Join(PrintLines(preamble) + SectionsLines(secs), NEW_LINE)
  }

  predicate IsTrimmed(s: string) {
    s == "" || (!White(s[0]) && !White(s[|s| - 1]))
  }

  predicate OneLine(s: string) {
    CR !in s && LF !in s
  }

  predicate WellFormedLine(line: Line) {
    && OneLine(PrintLine(line))
    && match line
       case Entry(indent, key, keyGap, lead, value, gap, comment, trail) =>
         && AllWhite(indent) && IsKey(key) && AllWhite(keyGap) && (key == "" ==> keyGap == "")
         && AllWhite(lead) && IsBody(value, gap, comment) && AllWhite(trail)
       case Note(text) => IsNote(Trim(text))
  }

  predicate IsKey(key: string) {
    IsTrimmed(key) && ':' !in key && (key == "" || (key[0] != '#' && key[0] != '['))
  }

  predicate IsBody(value: string, gap: string, comment: string) {
    && IsTrimmed(value) && '#' !in value
    && AllWhite(gap) && IsTrimmed(comment)
    && (if comment == "" then gap == "" else comment[0] == '#')
  }

  predicate IsNote(trimmed: string) {
    StartsWith(trimmed, "#") || (!IsHeader(trimmed) && LineSetting(trimmed).None?)
  }

  predicate WellFormedSection(s: Section) {
    && AllWhite(s.indent) && OneLine(Header(s)) && ':' !in s.name && ']' !in s.name && ':' !in s.tail
    && forall k :: 0 <= k < |s.lines| ==> WellFormedLine(s.lines[k])
  }

  predicate WellFormedFile(preamble: seq<Line>, secs: seq<Section>) {
    && secs != []
    && (forall k :: 0 <= k < |preamble| ==> WellFormedLine(preamble[k]))
    && (forall k :: 0 <= k < |secs| ==> WellFormedSection(secs[k]))
  }

  /**
    What the reader keeps of an entry: the space before a comment stays part of the value, and a comment with no value
    before it becomes the value.
    */
  function Kept(line: Line): Setting
    requires line.Entry?
  {
    Setting(line.key, if line.value == "" then line.comment else line.value + line.gap)
  }

  function KeptLines(lines: seq<Line>): seq<Setting> {
    if lines == [] then []
    else (if lines[0].Entry? then [Kept(lines[0])] else []) + KeptLines(lines[1..])
  }

  /** The sections from the first one with this name on. */
  function From(secs: seq<Section>, name: string): seq<Section> {
    if secs == [] || secs[0].name == name then secs else From(secs[1..], name)
  }

  /** The settings of the first section that has any. */
  function FirstSettings(secs: seq<Section>): seq<Setting> {
    if secs == [] then []
    else if KeptLines(secs[0].lines) != [] then KeptLines(secs[0].lines)
    else FirstSettings(secs[1..])
  }

  // --- one line -------------------------------------------------------------------------------------

  lemma TrimTrimmed(a: string, s: string)
    requires AllWhite(a) && IsTrimmed(s)
    ensures Trim(a + s) == s
  {
    FrontDropped(a, s);
    EndDropped(s, "");
    assert s + "" == s;
  }

  /** The text of an entry after its colon, trimmed. */
  function Body(value: string, gap: string, comment: string): string {
    if value == "" then comment else value + (gap + comment)
  }

  lemma BodyIsTrimmed(value: string, gap: string, comment: string)
    requires IsBody(value, gap, comment)
    ensures IsTrimmed(Body(value, gap, comment))
  {
    if value != "" {
      var body := value + (gap + comment);
      assert body[0] == value[0];
      if comment != "" {
        assert body[|body| - 1] == comment[|comment| - 1];
      } else {
        assert body == value;
      }
    }
  }

  lemma EntryValue(lead: string, value: string, gap: string, comment: string)
    requires AllWhite(lead) && IsBody(value, gap, comment)
    ensures Trim(lead + (value + (gap + comment))) == Body(value, gap, comment)
  {
    BodyIsTrimmed(value, gap, comment);
    if value == "" {
      assert lead + (value + (gap + comment)) == (lead + gap) + comment;
      TrimTrimmed(lead + gap, comment);
    } else {
      TrimTrimmed(lead, Body(value, gap, comment));
    }
  }

  lemma CutComment(value: string, gap: string, comment: string)
    requires IsBody(value, gap, comment)
    ensures WithoutComment(Body(value, gap, comment)) == if value == "" then comment else value + gap
  {
    if value == "" {
      if comment != "" { assert OccursAt(comment, "#", 0); }
    } else {
      NoHash(value, gap);
      CutAt(value + gap, comment);
      assert value + (gap + comment) == value + gap + comment;
    }
  }

  lemma NoHash(value: string, gap: string)
    requires '#' !in value && AllWhite(gap)
    ensures '#' !in value + gap
  {
    forall k | 0 <= k < |gap| ensures gap[k] != '#' {
      assert White(gap[k]);
    }
  }

  lemma CutAt(before: string, comment: string)
    requires before != "" && '#' !in before && (comment == "" || comment[0] == '#')
    ensures WithoutComment(before + comment) == before
  {
    var text := before + comment;
    CleanIfApart(before, "#");
    if comment == "" {
      assert text == before;
    } else {
      assert text[|before|..|before| + 1] == "#";
      forall i | 0 <= i < |before| ensures !OccursAt(text, "#", i) {
        assert text[i] == before[i];
      }
      assert OccursAt(text, "#", |before|);
    }
  }

  /** The text before the colon, from its first character on. */
  predicate IsKeyText(text: string) {
    ':' !in text && (text == "" || (!White(text[0]) && text[0] != '#' && text[0] != '['))
  }

  /** Trimming a printed entry leaves its key, its colon and what follows, up to white space at the end. */
  lemma EntryTrimmed(keyText: string, lead: string, value: string, gap: string, comment: string, trail: string)
      returns (rest: string)
    requires IsKeyText(keyText) && AllWhite(lead) && IsBody(value, gap, comment) && AllWhite(trail)
    ensures Trim(keyText + ":" + (lead + (value + (gap + comment))) + trail) == keyText + ":" + rest
    ensures Trim(rest) == Body(value, gap, comment)
  {
    var text := lead + (value + (gap + comment));
    EntryValue(lead, value, gap, comment);
    if value == "" && comment == "" {
      assert text == lead;
      assert keyText + ":" + text + trail == keyText + ":" + (lead + trail);
      LastIsTrimmed(keyText + ":", lead + trail);
      rest := "";
      assert keyText + ":" + rest == keyText + ":";
    } else {
      rest := text;
      LastOfBody(value, gap, comment);
      var printed := keyText + ":" + text;
      assert printed[|printed| - 1] == (value + (gap + comment))[|value + (gap + comment)| - 1];
      LastIsTrimmed(printed, trail);
    }
  }

  lemma LastIsTrimmed(text: string, trail: string)
    requires text != "" && !White(text[0]) && !White(text[|text| - 1]) && AllWhite(trail)
    ensures Trim(text + trail) == text
  {
    TrimSurrounded("", text, trail);
    assert "" + text + trail == text + trail;
  }

  lemma LastOfBody(value: string, gap: string, comment: string)
    requires IsBody(value, gap, comment) && (value != "" || comment != "")
    ensures var body := value + (gap + comment); body != "" && !White(body[|body| - 1])
  {
    var body := value + (gap + comment);
    if comment == "" {
      assert body == value;
    } else {
      assert body[|body| - 1] == comment[|comment| - 1];
    }
  }

  lemma SettingAt(t: string, keyText: string, rest: string)
    requires IsKeyText(keyText) && t == keyText + ":" + rest
    ensures !StartsWith(t, "#") && !IsHeader(t)
    ensures LineSetting(t) == Some(Setting(Trim(keyText), WithoutComment(Trim(rest))))
  {
    var n := |keyText|;
    assert t[..n] == keyText && t[n + 1..] == rest;
    assert t[0] == if keyText == "" then ':' else keyText[0];
    assert t[n..n + 1] == ":";
    assert OccursAt(t, ":", n);
    forall i | 0 <= i < n ensures !OccursAt(t, ":", i) {
      assert t[i] == keyText[i];
    }
  }

  lemma KeyTextIsKey(key: string, keyGap: string)
    requires IsKey(key) && AllWhite(keyGap) && (key == "" ==> keyGap == "")
    ensures IsKeyText(key + keyGap) && Trim(key + keyGap) == key
  {
    forall k | 0 <= k < |keyGap| ensures keyGap[k] != ':' { assert White(keyGap[k]); }
    if key != "" {
      LastIsTrimmed(key, keyGap);
    }
  }

  lemma EntryIsRead(line: Line)
    requires line.Entry? && WellFormedLine(line)
    ensures var t := Trim(PrintLine(line));
            !StartsWith(t, "#") && !IsHeader(t) && LineSetting(t) == Some(Kept(line))
  {
    var keyText := line.key + line.keyGap;
    KeyTextIsKey(line.key, line.keyGap);
    var rest := EntryTrimmed(keyText, line.lead, line.value, line.gap, line.comment, line.trail);
    IndentDropped(line);
    SettingAt(Trim(PrintLine(line)), keyText, rest);
    CutComment(line.value, line.gap, line.comment);
  }

  lemma IndentDropped(line: Line)
    requires line.Entry? && WellFormedLine(line)
    ensures Trim(PrintLine(line))
         == Trim(line.key + line.keyGap + ":" + (line.lead + (line.value + (line.gap + line.comment))) + line.trail)
  {
    var core := line.key + line.keyGap + ":" + (line.lead + (line.value + (line.gap + line.comment))) + line.trail;
    assert core[0] == if line.key == "" then ':' else line.key[0];
    FrontDropped(line.indent, core);
    FrontDropped("", core);
    assert "" + core == core;
  }

  // --- sections -------------------------------------------------------------------------------------

  lemma {:induction false} EndTrimmed(s: string, tail: string)
    requires s != "" && !White(s[|s| - 1])
    ensures TrimEnd(s + tail) == s + TrimEnd(tail)
  {
    if tail == "" {
      assert s + tail == s;
    } else if White(tail[|tail| - 1]) {
      assert (s + tail)[..|s + tail| - 1] == s + tail[..|tail| - 1];
      EndTrimmed(s, tail[..|tail| - 1]);
    } else {
      assert TrimEnd(tail) == tail;
    }
  }

  /** A printed header, trimmed: its brackets and what is left after them. */
  lemma HeaderIsTrimmed(s: Section) returns (tail: string)
    requires WellFormedSection(s)
    ensures Trim(Header(s)) == "[" + s.name + "]" + tail && ':' !in tail
    ensures IsHeader(Trim(Header(s))) && !StartsWith(Trim(Header(s)), "#")
  {
    var head := "[" + s.name + "]";
    tail := TrimEnd(s.tail);
    FrontDropped(s.indent, head + s.tail);
    EndTrimmed(head, s.tail);
    var cut := EndCut(s.tail);
    assert s.tail == tail + cut;
    assert (head + tail)[0] == '[' && (head + tail)[..1] == "[";
  }

  lemma HeaderIsNoSetting(name: string, tail: string)
    requires ':' !in name && ':' !in tail
    ensures LineSetting("[" + name + "]" + tail) == None
  {
    FreeIfApart("[" + name + "]" + tail, ":");
  }

  lemma HeaderOpens(name: string, tail: string, section: string)
    requires ']' !in name && ']' !in section
    ensures Opens("[" + name + "]" + tail, section) <==> name == section
  {
    var h, p := "[" + name + "]" + tail, "[" + section + "]";
    if |name| < |section| {
      assert h[|name| + 1] == ']' && p[|name| + 1] == section[|name|];
    } else {
      assert h[..|section| + 1] == "[" + name[..|section|];
      assert p[|section| + 1] == ']';
      if |name| == |section| {
        assert name[..|section|] == name;
        assert h[1..|name| + 1] == name && p[1..|section| + 1] == section;
      } else {
        assert h[|section| + 1] == name[|section|];
      }
    }
  }

  lemma CollectOne(line: string, after: seq<string>, some: bool)
    requires var t := Trim(line); !StartsWith(t, "#") && !IsHeader(t) && LineSetting(t).Some?
    ensures Collect([line] + after, some) == [LineSetting(Trim(line)).value] + Collect(after, true)
  {
    assert ([line] + after)[1..] == after;
  }

  lemma CollectNone(line: string, after: seq<string>, some: bool)
    requires IsNote(Trim(line))
    ensures Collect([line] + after, some) == Collect(after, some)
  {
    assert ([line] + after)[1..] == after;
  }

  lemma PrintedCons(lines: seq<Line>, after: seq<string>)
    requires lines != []
    ensures PrintLines(lines) + after == [PrintLine(lines[0])] + (PrintLines(lines[1..]) + after)
  {
  }

  lemma {:induction false} LinesAreCollected(lines: seq<Line>, after: seq<string>, some: bool)
    requires forall k :: 0 <= k < |lines| ==> WellFormedLine(lines[k])
    ensures Collect(PrintLines(lines) + after, some)
         == KeptLines(lines) + Collect(after, some || KeptLines(lines) != [])
  {
    if lines == [] {
      assert PrintLines(lines) + after == after;
      assert [] + Collect(after, some) == Collect(after, some);
      return;
    }
    var rest := PrintLines(lines[1..]) + after;
    PrintedCons(lines, after);
    if lines[0].Entry? {
      EntryIsRead(lines[0]);
      CollectOne(PrintLine(lines[0]), rest, some);
      LinesAreCollected(lines[1..], after, true);
      EntryFirst(lines);
    } else {
      CollectNone(PrintLine(lines[0]), rest, some);
      LinesAreCollected(lines[1..], after, some);
      NoteFirst(lines);
    }
  }

  lemma EntryFirst(lines: seq<Line>)
    requires lines != [] && lines[0].Entry?
    ensures KeptLines(lines) == [Kept(lines[0])] + KeptLines(lines[1..]) && KeptLines(lines) != []
    ensures forall after :: KeptLines(lines) + after == [Kept(lines[0])] + (KeptLines(lines[1..]) + after)
  {
  }

  lemma NoteFirst(lines: seq<Line>)
    requires lines != [] && lines[0].Note?
    ensures KeptLines(lines) == KeptLines(lines[1..])
  {
  }

  lemma SectionCons(secs: seq<Section>)
    requires secs != []
    ensures SectionsLines(secs) == [Header(secs[0])] + (PrintLines(secs[0].lines) + SectionsLines(secs[1..]))
  {
  }

  lemma CollectHeader(s: Section, after: seq<string>, some: bool)
    requires WellFormedSection(s)
    ensures Collect([Header(s)] + after, some) == if some then [] else Collect(after, false)
  {
    assert ([Header(s)] + after)[1..] == after;
    var tail := HeaderIsTrimmed(s);
    HeaderIsNoSetting(s.name, tail);
  }

  lemma {:induction false} SectionsAreCollected(secs: seq<Section>, some: bool)
    requires forall k :: 0 <= k < |secs| ==> WellFormedSection(secs[k])
    ensures Collect(SectionsLines(secs), some) == if some then [] else FirstSettings(secs)
  {
    if secs != [] {
      var s, rest := secs[0], SectionsLines(secs[1..]);
      SectionCons(secs);
      CollectHeader(s, PrintLines(s.lines) + rest, some);
      if !some {
        LinesAreCollected(s.lines, rest, false);
        SectionsAreCollected(secs[1..], KeptLines(s.lines) != []);
      }
    }
  }

  lemma LineOpensNothing(line: Line, section: string)
    requires WellFormedLine(line)
    ensures !Opens(Trim(PrintLine(line)), section)
  {
    var t := Trim(PrintLine(line));
    if line.Entry? {
      EntryIsRead(line);
    } else if StartsWith(t, "#") {
      CommentIsNoHeader(t, section);
    }
    if Opens(t, section) {
      OpeningIsHeader(t, section);
    }
  }

  lemma {:induction false} LinesAreSkipped(lines: seq<Line>, after: seq<string>, section: string)
    requires forall k :: 0 <= k < |lines| ==> WellFormedLine(lines[k])
    ensures FromHeader(PrintLines(lines) + after, section) == FromHeader(after, section)
  {
    if lines == [] {
      assert PrintLines(lines) + after == after;
    } else {
      var all := PrintLines(lines) + after;
      assert all[1..] == PrintLines(lines[1..]) + after && all[0] == PrintLine(lines[0]);
      LineOpensNothing(lines[0], section);
      LinesAreSkipped(lines[1..], after, section);
    }
  }

  lemma SkipHeader(s: Section, after: seq<string>, section: string)
    requires WellFormedSection(s) && ']' !in section
    ensures FromHeader([Header(s)] + after, section)
         == if s.name == section then [Header(s)] + after else FromHeader(after, section)
  {
    assert ([Header(s)] + after)[1..] == after;
    var tail := HeaderIsTrimmed(s);
    HeaderOpens(s.name, tail, section);
  }

  lemma {:induction false} SectionIsFound(secs: seq<Section>, section: string)
    requires forall k :: 0 <= k < |secs| ==> WellFormedSection(secs[k])
    requires ']' !in section
    ensures FromHeader(SectionsLines(secs), section) == SectionsLines(From(secs, section))
  {
    if secs != [] {
      var s, rest := secs[0], SectionsLines(secs[1..]);
      SectionCons(secs);
      SkipHeader(s, PrintLines(s.lines) + rest, section);
      if s.name != section {
        LinesAreSkipped(s.lines, rest, section);
        SectionIsFound(secs[1..], section);
      }
    }
  }

  // --- the file -------------------------------------------------------------------------------------

  lemma {:induction false} SectionsAreLines(secs: seq<Section>)
    requires forall k :: 0 <= k < |secs| ==> WellFormedSection(secs[k])
    ensures forall k :: 0 <= k < |SectionsLines(secs)| ==> OneLine(SectionsLines(secs)[k])
  {
    if secs != [] {
      SectionsAreLines(secs[1..]);
      var own := SectionLines(secs[0]);
      forall k | 0 <= k < |own| ensures OneLine(own[k]) {
        if k > 0 { assert own[k] == PrintLine(secs[0].lines[k - 1]); }
      }
    }
  }

  lemma PrintedFileLines(preamble: seq<Line>, secs: seq<Section>)
    requires WellFormedFile(preamble, secs)
    ensures Split(PrintFile(preamble, secs), NEW_LINE) == PrintLines(preamble) + SectionsLines(secs)
  {
    var lines := PrintLines(preamble) + SectionsLines(secs);
    SectionsAreLines(secs);
    forall k | 0 <= k < |lines| ensures Clean(lines[k], NEW_LINE) && Free(lines[k], NEW_LINE) {
      assert OneLine(lines[k]);
      CleanIfApart(lines[k], NEW_LINE);
    }
    SplitInvertsJoin(lines, NEW_LINE);
  }

  lemma {:induction false} FromIsWellFormed(secs: seq<Section>, name: string)
    requires forall k :: 0 <= k < |secs| ==> WellFormedSection(secs[k])
    ensures forall k :: 0 <= k < |From(secs, name)| ==> WellFormedSection(From(secs, name)[k])
  {
    if secs != [] && secs[0].name != name {
      FromIsWellFormed(secs[1..], name);
    }
  }

  /** What the reader returns for every file in the layout and every section name. */
  lemma ReadsPrintedFile(preamble: seq<Line>, secs: seq<Section>, section: string)
    requires WellFormedFile(preamble, secs) && ']' !in section
    ensures Read(PrintFile(preamble, secs), section) == FirstSettings(From(secs, section))
  {
    PrintedFileLines(preamble, secs);
    LinesAreSkipped(preamble, SectionsLines(secs), section);
    SectionIsFound(secs, section);
    FromIsWellFormed(secs, section);
    SectionsAreCollected(From(secs, section), false);
  }

  lemma {:induction false} NothingLater(secs: seq<Section>)
    ensures FirstSettings(secs) == [] <==> forall k :: 0 <= k < |secs| ==> KeptLines(secs[k].lines) == []
  {
    if secs != [] {
      NothingLater(secs[1..]);
      assert forall k :: 1 <= k < |secs| ==> secs[k] == secs[1..][k - 1];
      if KeptLines(secs[0].lines) == [] && FirstSettings(secs[1..]) != [] {
        var k :| 0 <= k < |secs| - 1 && KeptLines(secs[1..][k].lines) != [];
        assert KeptLines(secs[k + 1].lines) != [];
      }
    }
  }

  lemma {:induction false} FromFirst(secs: seq<Section>, i: nat)
    requires i < |secs| && forall k :: 0 <= k < i ==> secs[k].name != secs[i].name
    ensures From(secs, secs[i].name) == secs[i..]
  {
    if i > 0 {
      FromFirst(secs[1..], i - 1);
      assert secs[1..][i - 1..] == secs[i..];
    }
  }

  /** The reader returns exactly the section's own settings if and only if it has some or no later section has any. */
  lemma ReadsOwnSettings(preamble: seq<Line>, secs: seq<Section>, i: nat)
    requires WellFormedFile(preamble, secs)
    requires i < |secs| && forall k :: 0 <= k < i ==> secs[k].name != secs[i].name
    ensures Read(PrintFile(preamble, secs), secs[i].name) == KeptLines(secs[i].lines)
            <==> KeptLines(secs[i].lines) != [] || forall k :: i < k < |secs| ==> KeptLines(secs[k].lines) == []
  {
    ReadsPrintedFile(preamble, secs, secs[i].name);
    FromFirst(secs, i);
    assert secs[i..][0] == secs[i] && secs[i..][1..] == secs[i + 1..];
    NothingLater(secs[i + 1..]);
    assert forall k :: i < k < |secs| ==> secs[k] == secs[i + 1..][k - i - 1];
    if KeptLines(secs[i].lines) == [] && FirstSettings(secs[i + 1..]) != [] {
      var k :| 0 <= k < |secs| - i - 1 && KeptLines(secs[i + 1..][k].lines) != [];
      assert KeptLines(secs[i + 1 + k].lines) != [];
    }
  }

  /**
    A printed value is read back unchanged exactly when no comment follows it, or one follows it directly; otherwise the
    reader returns the space before the comment too, or the comment itself for an empty value.
    */
  lemma ValueComesBack(line: Line)
    requires line.Entry? && WellFormedLine(line)
    ensures LineSetting(Trim(PrintLine(line))) == Some(Setting(line.key, line.value))
            <==> line.comment == "" || (line.value != "" && line.gap == "")
  {
    EntryIsRead(line);
    if line.value != "" {
      assert line.value + line.gap == line.value <==> line.gap == "";
    }
  }

  lemma TwoSections(secs: seq<Section>)
    requires secs == [Section("", "a", "", []), Section("", "b", "", [Entry("", "k", "", "", "v", "", "", "")])]
    ensures WellFormedFile([], secs)
    ensures PrintFile([], secs) == "[a]\r\n[b]\r\nk:v"
  {
    var entry := Entry("", "k", "", "", "v", "", "", "");
    assert PrintLine(entry) == "k:v" && Header(secs[0]) == "[a]" && Header(secs[1]) == "[b]";
    assert PrintLines([entry]) == ["k:v"];
    assert secs[1..][1..] == [] && SectionsLines(secs[1..]) == ["[b]", "k:v"];
    assert PrintLines([]) + SectionsLines(secs) == ["[a]", "[b]", "k:v"];
    JoinThree("[a]", "[b]", "k:v", NEW_LINE);
  }

  lemma SecondHasSetting(secs: seq<Section>)
    requires secs == [Section("", "a", "", []), Section("", "b", "", [Entry("", "k", "", "", "v", "", "", "")])]
    ensures FirstSettings(From(secs, "a")) == [Setting("k", "v")]
  {
    var entry := Entry("", "k", "", "", "v", "", "", "");
    assert Kept(entry) == Setting("k", "v" + "") && "v" + "" == "v";
    assert [entry][1..] == [] && KeptLines([entry]) == [Setting("k", "v")] + [];
    assert secs[1..][0].lines == [entry];
  }

  /** A text whose first section has no setting: the reader returns the setting of the second. */
  lemma EmptySectionReadsNext(content: string)
    requires content == "[a]\r\n[b]\r\nk:v"
    ensures Read(content, "a") == [Setting("k", "v")]
  {
    var secs := [Section("", "a", "", []), Section("", "b", "", [Entry("", "k", "", "", "v", "", "", "")])];
    TwoSections(secs);
    SecondHasSetting(secs);
    ReadsPrintedFile([], secs, "a");
  }
}
