/**
 The two APT source formats: one source a line, and deb822 stanzas. Parsing them,
 and disabling lines or stanzas by turning them into comments. Tokens are
 white-space separated and a `#` starts a comment anywhere.
 */
module AptText {
  import opened Wrappers
  import opened PyText

  datatype Entry = Entry(path: string, uri: string, suite: string, components: seq<string>)

  const DISABLED := "# Disabled by infra_tools: "

  function LowerChar(c: char): char {
    if 'A' <= c <= 'Z' then c + 32 as char else c
  }

  function Lower(s: string): (r: string)
    ensures |r| == |s|
  {
    if s == "" then "" else [LowerChar(s[0])] + Lower(s[1..])
  }

  predicate IsCdrom(uri: string) { StartsWith(Lower(uri), "cdrom:") }

  /** The first character that is not white space is a `#`. */
  predicate IsComment(line: string) {
    LStrip(line) != "" && LStrip(line)[0] == '#'
  }

  lemma DisabledIsComment(line: string)
    ensures IsComment(DISABLED + line) && !IsBlank(DISABLED + line)
  {
    var s := DISABLED + line;
    assert s[0] == '#' && !IsSpace('#');
    assert LStrip(s) == s;
    assert s[0] in s;
  }

  // ------------------------------------------------------------------- one line

  /** The text before a comment. */
  function Uncommented(s: string): string {
    if s == "" || s[0] == '#' then "" else [s[0]] + Uncommented(s[1..])
  }

  function Tokens(line: string): seq<string> {
    Words(Uncommented(line))
  }

  /** Past the options in brackets: the token behind the first one that closes them. */
  function AfterOptions(tokens: seq<string>, k: nat): nat
    decreases |tokens| - k
  {
    if k < |tokens| && !EndsWith(tokens[k], "]") then AfterOptions(tokens, k + 1) else k + 1
  }

  function UriIndex(tokens: seq<string>): nat {
    if 1 < |tokens| && StartsWith(tokens[1], "[") then AfterOptions(tokens, 1) else 1
  }

  function ParseLine(line: string, path: string): Option<Entry> {
    var stripped := LStrip(line);
    var tokens := Tokens(stripped);
    if !(StartsWith(stripped, "deb ") || StartsWith(stripped, "deb\t")) || tokens == [] || tokens[0] != "deb" then None
    else
      var k := UriIndex(tokens);
      if |tokens| <= k + 1 then None else Some(Entry(path, tokens[k], tokens[k + 1], tokens[k + 2..]))
  }

  method ParseOneLineSource(line: string, path: string) returns (r: Option<Entry>)
    ensures r == ParseLine(line, path)
  {
    var stripped := LStrip(line);
    if !StartsWith(stripped, "deb ") && !StartsWith(stripped, "deb\t") {
      return None;
    }
    var tokens := Tokens(stripped);
    if tokens == [] || tokens[0] != "deb" {
      return None;
    }
    var k := 1;
    if k < |tokens| && StartsWith(tokens[k], "[") {
      while k < |tokens| && !EndsWith(tokens[k], "]")
        invariant AfterOptions(tokens, k) == AfterOptions(tokens, 1)
      {
        k := k + 1;
      }
      k := k + 1;
    }
    if |tokens| <= k + 1 {
      return None;
    }
    return Some(Entry(path, tokens[k], tokens[k + 1], tokens[k + 2..]));
  }

  function Listed(r: Option<Entry>): seq<Entry> {
    if r.Some? then [r.value] else []
  }

  function LineEntries(lines: seq<string>, path: string): seq<Entry> {
    if lines == [] then [] else Listed(ParseLine(lines[0], path)) + LineEntries(lines[1..], path)
  }

  lemma CommentHasNoEntry(line: string, path: string)
    requires IsComment(line)
    ensures ParseLine(line, path).None?
  {
    assert !StartsWith(LStrip(line), "deb ") && !StartsWith(LStrip(line), "deb\t") by {
      assert LStrip(line)[0] == '#' && "deb "[0] == 'd' && "deb\t"[0] == 'd';
    }
  }

  /** Some token of the active part names a CD-ROM. */
  predicate NamesCdrom(line: string) {
    !IsBlank(line) && !IsComment(line) && exists t <- Tokens(LStrip(line)) :: IsCdrom(t)
  }

  function DisableLines(lines: seq<string>, which: string -> bool): seq<string> {
    if lines == [] then []
    else [if which(lines[0]) then DISABLED + lines[0] else lines[0]] + DisableLines(lines[1..], which)
  }

  /** The lines that stay, in order. */
  function KeptLines(lines: seq<string>, which: string -> bool): seq<string> {
    if lines == [] then [] else (if which(lines[0]) then [] else [lines[0]]) + KeptLines(lines[1..], which)
  }

  /** Disabling commutes with parsing: the entries are those of the kept lines. */
  lemma {:induction false} DisabledLinesParse(lines: seq<string>, which: string -> bool, path: string)
    ensures LineEntries(DisableLines(lines, which), path) == LineEntries(KeptLines(lines, which), path)
  {
    if lines != [] {
      hide ParseLine, IsComment;
      DisabledLinesParse(lines[1..], which, path);
      DisabledIsComment(lines[0]);
      var rest := DisableLines(lines[1..], which);
      if which(lines[0]) {
        CommentHasNoEntry(DISABLED + lines[0], path);
        assert DisableLines(lines, which)[1..] == rest;
        assert [] + LineEntries(rest, path) == LineEntries(rest, path);
        assert [] + KeptLines(lines[1..], which) == KeptLines(lines[1..], which);
      } else {
        var kept := KeptLines(lines[1..], which);
        assert DisableLines(lines, which)[1..] == rest && KeptLines(lines, which)[1..] == kept;
      }
    }
  }

  lemma {:induction false} DisabledAt(lines: seq<string>, which: string -> bool)
    ensures |DisableLines(lines, which)| == |lines|
    ensures forall i | 0 <= i < |lines| ::
            DisableLines(lines, which)[i] == if which(lines[i]) then DISABLED + lines[i] else lines[i]
  {
    if lines != [] { DisabledAt(lines[1..], which); }
  }

  /** A disabled line is one line: it keeps the line break it had. */
  lemma DisabledAreLines(lines: seq<string>, which: string -> bool)
    requires AreLines(lines)
    ensures AreLines(DisableLines(lines, which)) && |DisableLines(lines, which)| == |lines|
    ensures forall i | 0 <= i < |lines| ::
            DisableLines(lines, which)[i] == if which(lines[i]) then DISABLED + lines[i] else lines[i]
  {
    hide IsLine, IsComplete, DisableLines;
    DisabledAt(lines, which);
    var r := DisableLines(lines, which);
    forall i | 0 <= i < |r|
      ensures IsLine(r[i]) && (i < |r| - 1 ==> IsComplete(r[i]))
    {
      assert IsLine(lines[i]) by { assert lines[i] in lines; }
      OneDisabledLine(lines[i]);
    }
  }

  lemma OneDisabledLine(line: string)
    requires IsLine(line)
    ensures IsLine(DISABLED + line) && (IsComplete(line) ==> IsComplete(DISABLED + line))
  {
    var s := DISABLED + line;
    assert forall c <- DISABLED :: c != '\n';
    forall i | 0 <= i < |s| - 1
      ensures s[i] != '\n'
    {
      if i < |DISABLED| { assert s[i] == DISABLED[i] && DISABLED[i] in DISABLED; }
        else { assert s[i] == line[i - |DISABLED|]; }
    }
  }

  /** The text of a one-line file with lines disabled, read again. */
  lemma DisabledTextParses(content: string, which: string -> bool, path: string)
    ensures var lines := SplitLines(content);
            LineEntries(SplitLines(Join(DisableLines(lines, which))), path)
              == LineEntries(KeptLines(lines, which), path)
  {
    hide LineEntries, DisableLines, KeptLines;
    var lines := SplitLines(content);
    DisabledAreLines(lines, which);
    SplitJoined(DisableLines(lines, which));
    DisabledLinesParse(lines, which, path);
  }
}
