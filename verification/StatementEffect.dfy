/**
  What a database server does with a statement that the converter passes through. A statement is read as a whole: it
  creates an index, adds a named key, adds, alters or drops one column and does nothing else, or it is `Unread` and may
  do anything.
  */
module StatementEffect {
  import opened Text

  datatype Effect =
    | AddsObject(table: string)
    | AddsColumn(table: string, column: string, columnType: string)
    | AltersColumn(table: string, column: string, columnType: string)
    | DropsColumn(table: string, column: string)
    | Unread

  const IDENTIFIER_STOPS: string := " \t\r\n.,;'\"-()[]"
  const LIST_STOPS: string := "();'\"-"

  predicate IsIdentifier(s: string) {
    s != "" && Apart(s, IDENTIFIER_STOPS)
  }

  function NonEmpty(words: seq<string>): seq<string> {
    if words == [] then []
    else (if words[0] == "" then [] else [words[0]]) + NonEmpty(words[1..])
  }

  /** The words of a text, however many blanks stand between them. */
  function Tokens(text: string): seq<string> {
    NonEmpty(Split(text, " "))
  }

  /** The words make up a list in brackets. */
  predicate IsColumnList(words: seq<string>) {
    words != [] &&
    var s := Join(words, " ");
    |s| > 2 && s[0] == '(' && s[|s| - 1] == ')' && Apart(s[1..|s| - 1], LIST_STOPS)
  }

  const KEYS: seq<seq<string>> :=
    [["primary", "key"], ["primary", "key", "clustered"], ["primary", "key", "nonclustered"],
     ["unique"], ["unique", "clustered"], ["unique", "nonclustered"]]

  /** `constraint` with a name, the kind of a key and its columns. */
  predicate IsConstraint(words: seq<string>) {
    && |words| > 2 && words[0] == "constraint" && IsIdentifier(words[1])
    && exists k :: 0 <= k < |KEYS| && KEYS[k] <= words[2..] && IsColumnList(words[2 + |KEYS[k]|..])
  }

  /** A type, perhaps with its sizes in brackets. */
  predicate IsType(s: string) {
    var open := IndexOf(s, "(", 0);
    IsIdentifier(s) ||
    (0 < open < |s| - 1 && IsIdentifier(s[..open]) && s[|s| - 1] == ')' && Apart(s[open + 1..|s| - 1], LIST_STOPS))
  }

  predicate IsNullability(words: seq<string>) {
    words == [] || words == ["null"] || words == ["not", "null"]
  }

  /** A number or name, a call without arguments, or a text in quotes. */
  predicate IsDefault(s: string) {
    || IsIdentifier(s)
    || (EndsWith(s, "()") && IsIdentifier(s[..|s| - 2]))
    || (|s| > 1 && s[0] == '\'' && s[|s| - 1] == '\'' && '\'' !in s[1..|s| - 1])
  }

  predicate IsColumnRest(words: seq<string>) {
    var n := |words| - 2;
    IsNullability(words) || (n >= 0 && IsNullability(words[..n]) && words[n] == "default" && IsDefault(words[n + 1]))
  }

  /** Words after which `add` goes on with something other than a column. */
  const NO_COLUMN: set<string> := {"constraint", "primary", "foreign", "unique", "check", "default", "column"}

  /** What `alter table` with a name does, from the word after the name on. */
  function AlterEffect(table: string, words: seq<string>): Effect {
    if !IsIdentifier(table) || words == [] then Unread
    else if words[0] == "add" && IsConstraint(words[1..]) then AddsObject(table)
    else if |words| > 2 && words[0] == "add" && IsIdentifier(words[1]) && words[1] !in NO_COLUMN && IsType(words[2])
            && IsColumnRest(words[3..]) then AddsColumn(table, words[1], words[2])
    else if |words| > 3 && words[0] == "alter" && words[1] == "column" && IsIdentifier(words[2]) && IsType(words[3])
            && IsNullability(words[4..]) then AltersColumn(table, words[2], words[3])
    else if |words| == 3 && words[0] == "drop" && words[1] == "column" && IsIdentifier(words[2])
         then DropsColumn(table, words[2])
    else Unread
  }

  /** What `create .. index` does, from the word `index` on. */
  function IndexEffect(words: seq<string>): Effect {
    if |words| > 4 && words[0] == "index" && IsIdentifier(words[1]) && words[2] == "on" && IsIdentifier(words[3])
       && IsColumnList(words[4..])
    then AddsObject(words[3]) else Unread
  }

  function WordsEffect(words: seq<string>): Effect {
    if |words| > 2 && words[0] == "alter" && words[1] == "table" then AlterEffect(words[2], words[3..])
    else if |words| > 1 && words[0] == "create" then
      IndexEffect(words[if words[1] == "clustered" then 2 else 1..])
    else Unread
  }

  function EffectOf(text: string): Effect {
    WordsEffect(Tokens(text))
  }

  lemma {:induction false} NonEmptyAppend(a: seq<string>, b: seq<string>)
    ensures NonEmpty(a + b) == NonEmpty(a) + NonEmpty(b)
  {
    if a == [] {
      assert a + b == b;
    } else {
      assert (a + b)[1..] == a[1..] + b;
      NonEmptyAppend(a[1..], b);
    }
  }

  lemma {:induction false} NonEmptyKeeps(words: seq<string>)
    requires forall k :: 0 <= k < |words| ==> words[k] != ""
    ensures NonEmpty(words) == words
  {
    if words != [] {
      NonEmptyKeeps(words[1..]);
    }
  }
}
