/**
  The string operations that the modelled tools take from their libraries: ordinal search, splitting
  on a separator, joining, replacing and trimming. Splitting is the operation every parser here rests on,
  so its inverse is characterised exactly: `SplitInvertsJoin` gives the condition under which joined
  pieces are read back unchanged, and `JoinInvertsSplit` shows that every split has that shape.
  */
module Text {

  const CR: char := '\r'
  const LF: char := '\n'
  const NEW_LINE: string := "\r\n"
  const BLANK_LINE: string := NEW_LINE + NEW_LINE

  predicate StartsWith(s: string, prefix: string) {
    prefix <= s
  }

  predicate EndsWith(s: string, suffix: string) {
    |suffix| <= |s| && s[|s| - |suffix|..] == suffix
  }

  predicate OccursAt(s: string, sub: string, i: int) {
    0 <= i <= |s| - |sub| && s[i..i + |sub|] == sub
  }

  /** Ordinal search from a start position; -1 when there is no occurrence. */
  function IndexOf(s: string, sub: string, from: nat): (r: int)
    requires from <= |s|
    ensures r == -1 || (from <= r && OccursAt(s, sub, r))
    ensures forall i :: from <= i && (r == -1 || i < r) ==> !OccursAt(s, sub, i)
    decreases |s| - from
  {
    if OccursAt(s, sub, from) then from
    else if from == |s| then -1
    else IndexOf(s, sub, from + 1)
  }

  /** The text never contains the separator. */
  ghost predicate Free(s: string, sep: string) {
    forall i :: !OccursAt(s, sep, i)
  }

  /** Followed by the separator, the first occurrence of the separator is that one. */
  ghost predicate Clean(s: string, sep: string) {
    forall i :: 0 <= i < |s| ==> !OccursAt(s + sep, sep, i)
  }

  /** The text has no character of the other text. */
  predicate Apart(s: string, chars: string) {
    forall i :: 0 <= i < |s| ==> s[i] !in chars
  }

  function Split(s: string, sep: string): (r: seq<string>)
    requires |sep| > 0
    ensures |r| > 0
    decreases |s|
  {
    var i := IndexOf(s, sep, 0);
    if i < 0 then [s] else [s[..i]] + Split(s[i + |sep|..], sep)
  }

  function Join(pieces: seq<string>, sep: string): string
    requires |pieces| > 0
  {
    if |pieces| == 1 then pieces[0] else pieces[0] + sep + Join(pieces[1..], sep)
  }

  /** The pieces, each followed by the separator. */
  function Terminated(pieces: seq<string>, sep: string): string {
    Join(pieces + [""], sep)
  }

  function Replace(s: string, old_: string, new_: string): string
    requires |old_| > 0
  {
    Join(Split(s, old_), new_)
  }

  ghost predicate Separable(pieces: seq<string>, sep: string) {
    && |pieces| > 0
    && (forall k :: 0 <= k < |pieces| - 1 ==> Clean(pieces[k], sep))
    && Free(pieces[|pieces| - 1], sep)
  }

  // --- occurrences -------------------------------------------------------------------------------

  lemma OccursAtChars(s: string, sub: string, i: int)
    requires OccursAt(s, sub, i)
    ensures forall k :: 0 <= k < |sub| ==> s[i + k] == sub[k]
    ensures |sub| > 0 ==> s[i] == sub[0]
  {
    forall k | 0 <= k < |sub| ensures s[i + k] == sub[k] {
      assert s[i..i + |sub|][k] == s[i + k];
    }
  }

  lemma OccursAtPrefix(a: string, b: string, sub: string, i: int)
    requires 0 <= i && i + |sub| <= |a|
    ensures OccursAt(a + b, sub, i) == OccursAt(a, sub, i)
  {
    assert (a + b)[i..i + |sub|] == a[i..i + |sub|];
  }

  lemma OccursAtSuffix(a: string, b: string, sub: string, i: int)
    ensures i >= |a| ==> OccursAt(a + b, sub, i) == OccursAt(b, sub, i - |a|)
  {
    if |a| <= i <= |a| + |b| - |sub| {
      assert (a + b)[i..i + |sub|] == b[i - |a|..i - |a| + |sub|];
    }
  }

  lemma FreeParts(a: string, b: string, sep: string)
    requires Free(a + b, sep)
    ensures Free(a, sep) && Free(b, sep)
  {
    forall i ensures !OccursAt(a, sep, i) {
      if 0 <= i && i + |sep| <= |a| { OccursAtPrefix(a, b, sep, i); }
    }
    forall i ensures !OccursAt(b, sep, i) {
      OccursAtSuffix(a, b, sep, i + |a|);
    }
  }

  lemma FreeIfApart(s: string, sep: string)
    requires |sep| > 0 && (Apart(s, sep) || sep[0] !in s)
    ensures Free(s, sep)
  {
    forall i ensures !OccursAt(s, sep, i) {
      if OccursAt(s, sep, i) { OccursAtChars(s, sep, i); }
    }
  }

  lemma SharedCharacter(a: string, glue: string, b: string, sep: string, i: int)
    requires |glue| > 0 && |sep| > 0 && OccursAt(a + glue + b, sep, i)
    requires i < |a + glue| && |a| < i + |sep|
    ensures !Apart(glue, sep)
  {
    OccursAtChars(a + glue + b, sep, i);
    var k := if i <= |a| then |a| - i else 0;
    assert glue[i + k - |a|] == (a + glue + b)[i + k] == sep[k];
  }

  /** A separator cannot straddle glue that shares no character with it. */
  lemma FreeAcross(a: string, glue: string, b: string, sep: string)
    requires |glue| > 0 && |sep| > 0 && Apart(glue, sep)
    requires Free(a, sep) && Free(b, sep)
    ensures Free(a + glue + b, sep)
  {
    forall i ensures !OccursAt(a + glue + b, sep, i) {
      if OccursAt(a + glue + b, sep, i) {
        OccursAtChars(a + glue + b, sep, i);
        if i + |sep| <= |a| {
          assert a + glue + b == a + (glue + b);
          OccursAtPrefix(a, glue + b, sep, i);
        } else if i >= |a + glue| {
          OccursAtSuffix(a + glue, b, sep, i);
        } else {
          SharedCharacter(a, glue, b, sep, i);
        }
      }
    }
  }

  lemma {:induction false} FreeJoin(pieces: seq<string>, glue: string, sep: string)
    requires |pieces| > 0 && |glue| > 0 && |sep| > 0 && Apart(glue, sep)
    ensures Free(Join(pieces, glue), sep) <==> forall k :: 0 <= k < |pieces| ==> Free(pieces[k], sep)
  {
    if |pieces| == 1 {
    } else {
      var rest := Join(pieces[1..], glue);
      FreeJoin(pieces[1..], glue, sep);
      assert forall k :: 1 <= k < |pieces| ==> pieces[k] == pieces[1..][k - 1];
      if Free(Join(pieces, glue), sep) {
        assert pieces[0] + glue + rest == pieces[0] + (glue + rest);
        FreeParts(pieces[0], glue + rest, sep);
        FreeParts(glue, rest, sep);
      } else if forall k :: 0 <= k < |pieces| ==> Free(pieces[k], sep) {
        FreeAcross(pieces[0], glue, rest, sep);
      }
    }
  }

  // --- splitting and joining ---------------------------------------------------------------------

  lemma SplitFree(s: string, sep: string)
    requires |sep| > 0
    ensures Free(s, sep) <==> Split(s, sep) == [s]
  {
    var i := IndexOf(s, sep, 0);
    if i >= 0 {
      assert !Free(s, sep);
      assert |Split(s, sep)| > 1;
    }
  }

  lemma SplitHead(a: string, sep: string, rest: string)
    requires |sep| > 0 && Clean(a, sep)
    ensures Split(a + sep + rest, sep) == [a] + Split(rest, sep)
  {
    var s := a + sep + rest;
    forall i | 0 <= i < |a| ensures !OccursAt(s, sep, i) {
      OccursAtPrefix(a + sep, rest, sep, i);
    }
    assert s[|a|..|a| + |sep|] == sep;
    assert OccursAt(s, sep, |a|);
    assert IndexOf(s, sep, 0) == |a|;
    assert s[..|a|] == a && s[|a| + |sep|..] == rest;
  }

  lemma CleanIfFirst(s: string, sep: string, i: nat)
    requires OccursAt(s, sep, i) && forall j :: 0 <= j < i ==> !OccursAt(s, sep, j)
    ensures Clean(s[..i], sep) && s == s[..i] + sep + s[i + |sep|..]
  {
    var a, rest := s[..i], s[i + |sep|..];
    assert s == a + sep + rest;
    forall j | 0 <= j < |a| ensures !OccursAt(a + sep, sep, j) {
      OccursAtPrefix(a + sep, rest, sep, j);
    }
  }

  lemma CleanIfApart(s: string, sep: string)
    requires |sep| > 0 && sep[0] !in s
    ensures Clean(s, sep) && Free(s, sep)
  {
    FreeIfApart(s, sep);
    forall i | 0 <= i < |s| ensures !OccursAt(s + sep, sep, i) {
      if OccursAt(s + sep, sep, i) { OccursAtChars(s + sep, sep, i); }
    }
  }

  /** What a split returns always joins back to the text, and its pieces are separable. */
  lemma {:induction false} JoinInvertsSplit(s: string, sep: string)
    requires |sep| > 0
    ensures Join(Split(s, sep), sep) == s
    ensures Separable(Split(s, sep), sep)
    decreases |s|
  {
    var i := IndexOf(s, sep, 0);
    if i < 0 {
      assert Free(s, sep);
    } else {
      var rest := s[i + |sep|..];
      JoinInvertsSplit(rest, sep);
      CleanIfFirst(s, sep, i);
      var pieces := Split(s, sep);
      assert pieces[1..] == Split(rest, sep);
      forall k | 0 <= k < |pieces| - 1 ensures Clean(pieces[k], sep) {
        if k > 0 { assert pieces[k] == pieces[1..][k - 1]; }
      }
      assert pieces[|pieces| - 1] == pieces[1..][|pieces| - 2];
    }
  }

  /** Joined pieces are read back exactly when they are separable. */
  lemma {:induction false} SplitInvertsJoin(pieces: seq<string>, sep: string)
    requires |pieces| > 0 && |sep| > 0
    ensures Split(Join(pieces, sep), sep) == pieces <==> Separable(pieces, sep)
  {
    if Separable(pieces, sep) {
      if |pieces| == 1 {
        SplitFree(pieces[0], sep);
      } else {
        var rest := pieces[1..];
        assert forall k :: 0 <= k < |rest| ==> rest[k] == pieces[k + 1];
        SplitInvertsJoin(rest, sep);
        SplitHead(pieces[0], sep, Join(rest, sep));
      }
    } else {
      JoinInvertsSplit(Join(pieces, sep), sep);
    }
  }

  lemma {:induction false} JoinLength(pieces: seq<string>, long: string, short: string)
    requires |pieces| > 1 && |short| < |long|
    ensures |Join(pieces, short)| < |Join(pieces, long)|
  {
    if |pieces| > 2 {
      JoinLength(pieces[1..], long, short);
    }
  }

  /** Deleting a text changes nothing exactly when the text does not occur. */
  lemma DeleteIsIdentity(s: string, sub: string)
    requires |sub| > 0
    ensures Free(s, sub) <==> Replace(s, sub, "") == s
    ensures !Free(s, sub) ==> |Replace(s, sub, "")| < |s|
  {
    SplitFree(s, sub);
    JoinInvertsSplit(s, sub);
    if |Split(s, sub)| > 1 {
      JoinLength(Split(s, sub), sub, "");
    } else {
      assert Split(s, sub) == [Join(Split(s, sub), sub)];
    }
  }

  lemma {:induction false} JoinAppend(a: seq<string>, b: seq<string>, sep: string)
    requires |a| > 0 && |b| > 0
    ensures Join(a + b, sep) == Join(a, sep) + sep + Join(b, sep)
  {
    if |a| == 1 {
      assert (a + b)[1..] == b;
    } else {
      JoinAppend(a[1..], b, sep);
      assert (a + b)[1..] == a[1..] + b;
    }
  }

  lemma JoinTwo(a: string, b: string, sep: string)
    ensures Join([a, b], sep) == a + sep + b
  {
    assert [a, b][1..] == [b];
    assert Join([b], sep) == b;
  }

  lemma JoinThree(a: string, b: string, c: string, sep: string)
    ensures Join([a, b, c], sep) == a + sep + (b + sep + c)
  {
    assert [a, b, c][1..] == [b, c];
    JoinTwo(b, c, sep);
  }

  lemma TerminatedAppend(a: seq<string>, b: seq<string>, sep: string)
    ensures Terminated(a + b, sep) == Terminated(a, sep) + Terminated(b, sep)
  {
    assert a + b + [""] == a + (b + [""]);
    if a == [] {
      assert a + (b + [""]) == b + [""];
    } else {
      JoinAppend(a, b + [""], sep);
      JoinAppend(a, [""], sep);
    }
  }

  lemma TerminatedOneMore(pieces: seq<string>, piece: string, sep: string)
    ensures Terminated(pieces + [piece], sep) == Terminated(pieces, sep) + piece + sep
  {
    TerminatedAppend(pieces, [piece], sep);
    assert [piece] + [""] == [piece, ""];
    assert Join([piece, ""], sep) == piece + sep + "";
  }

  lemma TerminatedFirst(pieces: seq<string>, sep: string)
    requires pieces != []
    ensures Terminated(pieces, sep) == pieces[0] + sep + Terminated(pieces[1..], sep)
  {
    assert (pieces + [""])[1..] == pieces[1..] + [""];
  }

  // --- lower case and trimming -------------------------------------------------------------------

  /** Lower case of the ASCII letters. */
  function LowerChar(c: char): char {
    if 'A' <= c <= 'Z' then c - 'A' + 'a' else c
  }

  function ToLower(s: string): string {
    seq(|s|, i requires 0 <= i < |s| => LowerChar(s[i]))
  }

  /** The character, or the capital of it if it is a small letter; the other is no capital itself. */
  predicate IsCaseOf(c: char, small: char) {
    if 'a' <= small <= 'z' then c == small || c as int + 32 == small as int
    else c == small && !('A' <= small <= 'Z')
  }

  /** The first text is the second with some of its small letters as capitals. */
  predicate IsCasing(s: string, small: string) {
    |s| == |small| && forall i :: 0 <= i < |s| ==> IsCaseOf(s[i], small[i])
  }

  predicate NoCapitals(s: string) {
    forall i :: 0 <= i < |s| ==> !('A' <= s[i] <= 'Z')
  }

  /** A text is lower-cased to exactly the text without capitals that it is a casing of. */
  lemma LowerIsCasing(s: string, small: string)
    ensures ToLower(s) == small <==> IsCasing(s, small)
    ensures IsCasing(s, small) ==> NoCapitals(small)
  {
    forall i | 0 <= i < |s| && |s| == |small| ensures LowerChar(s[i]) == small[i] <==> IsCaseOf(s[i], small[i]) {
      LowerCharIsCase(s[i], small[i]);
    }
    if ToLower(s) == small {
      assert forall i :: 0 <= i < |s| ==> ToLower(s)[i] == LowerChar(s[i]);
    }
    if IsCasing(s, small) {
      assert ToLower(s) == small;
    }
  }

  lemma LowerCharIsCase(c: char, small: char)
    ensures LowerChar(c) == small <==> IsCaseOf(c, small)
  {
  }

  lemma LowerKeeps(s: string)
    requires NoCapitals(s)
    ensures ToLower(s) == s
  {
    assert forall i :: 0 <= i < |s| ==> ToLower(s)[i] == s[i];
  }

  predicate Blank(c: char) {
    c == ' ' || c == '\t'
  }

  /** Drops leading blanks and tabs. */
  function TrimStart(s: string): string {
    if s != "" && Blank(s[0]) then TrimStart(s[1..]) else s
  }

  lemma {:induction false} TrimStartIndent(indent: string, s: string)
    requires forall i :: 0 <= i < |indent| ==> Blank(indent[i])
    requires s == "" || !Blank(s[0])
    ensures TrimStart(indent + s) == s
  {
    if indent == "" {
      assert indent + s == s;
    } else {
      assert (indent + s)[1..] == indent[1..] + s;
      TrimStartIndent(indent[1..], s);
    }
  }

  /** White space of the ASCII range. */
  predicate White(c: char) {
    c == ' ' || '\t' <= c <= '\r'
  }

  function TrimEnd(s: string): string {
    if s != "" && White(s[|s| - 1]) then TrimEnd(s[..|s| - 1]) else s
  }

  function TrimFront(s: string): string {
    if s != "" && White(s[0]) then TrimFront(s[1..]) else s
  }

  /** Drops white space at both ends. */
  function Trim(s: string): string {
    TrimEnd(TrimFront(s))
  }

  predicate AllWhite(s: string) {
    forall i :: 0 <= i < |s| ==> White(s[i])
  }

  /** Tabulator, line feed, vertical tabulator, form feed, carriage return and blank. */
  const WHITE_CODES: set<int> := {9, 10, 11, 12, 13, 32}

  predicate IsWhiteCode(c: char) {
    c as int in WHITE_CODES
  }

  lemma {:induction false} FrontCut(s: string) returns (a: string)
    ensures s == a + TrimFront(s) && AllWhite(a) && (TrimFront(s) == "" || !White(TrimFront(s)[0]))
  {
    a := "";
    if s != "" && White(s[0]) {
      var rest := FrontCut(s[1..]);
      a := [s[0]] + rest;
      assert s == [s[0]] + s[1..];
    }
  }

  lemma {:induction false} EndCut(s: string) returns (b: string)
    ensures s == TrimEnd(s) + b && AllWhite(b) && (TrimEnd(s) == "" || !White(TrimEnd(s)[|TrimEnd(s)| - 1]))
  {
    b := "";
    if s != "" && White(s[|s| - 1]) {
      var rest := EndCut(s[..|s| - 1]);
      b := rest + [s[|s| - 1]];
      assert s == s[..|s| - 1] + [s[|s| - 1]];
    }
  }

  /** Trimming cuts off exactly the white space at both ends. */
  lemma TrimCuts(s: string) returns (a: string, b: string)
    ensures s == a + Trim(s) + b
    ensures forall c :: c in a + b ==> IsWhiteCode(c)
    ensures var t := Trim(s); t == "" || (!IsWhiteCode(t[0]) && !IsWhiteCode(t[|t| - 1]))
  {
    a := FrontCut(s);
    b := EndCut(TrimFront(s));
    var t, rest := Trim(s), TrimFront(s);
    assert rest == t + b;
    assert s == a + t + b;
    forall c | c in a + b ensures IsWhiteCode(c) {
      assert c in a || c in b;
    }
    if t != "" {
      assert rest[0] == t[0];
    }
  }

  /** Cutting the indentation off a line takes blanks and tabulators and nothing else. */
  lemma {:induction false} StartCut(s: string) returns (a: string)
    ensures s == a + TrimStart(s) && forall c :: c in a ==> c as int in {9, 32}
    ensures TrimStart(s) == "" || TrimStart(s)[0] as int !in {9, 32}
  {
    a := "";
    if s != "" && Blank(s[0]) {
      var rest := StartCut(s[1..]);
      a := [s[0]] + rest;
      assert s == [s[0]] + s[1..];
    }
  }

  lemma {:induction false} FrontDropped(a: string, s: string)
    requires AllWhite(a) && (s == "" || !White(s[0]))
    ensures TrimFront(a + s) == s
  {
    if a == "" {
      assert a + s == s;
    } else {
      assert (a + s)[1..] == a[1..] + s;
      FrontDropped(a[1..], s);
    }
  }

  lemma {:induction false} EndDropped(s: string, b: string)
    requires AllWhite(b) && (s == "" || !White(s[|s| - 1]))
    ensures TrimEnd(s + b) == s
  {
    if b == "" {
      assert s + b == s;
    } else {
      assert (s + b)[..|s + b| - 1] == s + b[..|b| - 1];
      EndDropped(s, b[..|b| - 1]);
    }
  }

  /** A text without white space at its ends is what remains of it between white space. */
  lemma TrimSurrounded(a: string, s: string, b: string)
    requires AllWhite(a) && AllWhite(b) && s != "" && !White(s[0]) && !White(s[|s| - 1])
    ensures Trim(a + s + b) == s
  {
    assert a + s + b == a + (s + b);
    FrontDropped(a, s + b);
    EndDropped(s, b);
  }
}
