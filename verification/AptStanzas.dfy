/** deb822 source files: stanzas, fields, entries, and disabling of whole stanzas. */
module AptStanzas {
  import opened Wrappers
  import opened PyText
  import opened AptText

  // -------------------------------------------------------------------- stanzas

  function Flush(current: seq<string>): seq<seq<string>> {
    if current == [] then [] else [current]
  }

  /** Runs of nonblank lines; `current` is the run begun before. */
  function StanzasFrom(lines: seq<string>, current: seq<string>): seq<seq<string>>
    decreases |lines|
  {
    if lines == [] then Flush(current)
    else if IsBlank(lines[0]) then Flush(current) + StanzasFrom(lines[1..], [])
    else StanzasFrom(lines[1..], current + [lines[0]])
  }

  method Deb822Stanzas(content: string) returns (stanzas: seq<seq<string>>)
    ensures stanzas == StanzasFrom(SplitLines(content), [])
  {
    var lines := SplitLines(content);
    var current: seq<string> := [];
    stanzas := [];
    for i := 0 to |lines|
      invariant stanzas + StanzasFrom(lines[i..], current) == StanzasFrom(lines, [])
    {
      assert lines[i..][1..] == lines[i + 1..];
      if IsBlank(lines[i]) {
        if current != [] {
          assert stanzas + ([current] + StanzasFrom(lines[i + 1..], [])) == (stanzas + [current])
            + StanzasFrom(lines[i + 1..], []);
          stanzas := stanzas + [current];
          current := [];
        }
      } else {
        current := current + [lines[i]];
      }
    }
    assert lines[|lines|..] == [];
    if current != [] {
      stanzas := stanzas + [current];
    }
  }

  /** Nonblank lines; only the last one may lack its line break. */
  ghost predicate IsStanza(s: seq<string>) {
    s != [] && AreLines(s) && forall l <- s :: !IsBlank(l)
  }

  ghost predicate AllComplete(s: seq<string>) {
    forall l <- s :: IsComplete(l)
  }

  /** All stanzas but the last are complete. */
  ghost predicate AreStanzas(stanzas: seq<seq<string>>) {
    (forall s <- stanzas :: IsStanza(s)) && forall i | 0 <= i < |stanzas| - 1 :: AllComplete(stanzas[i])
  }

  lemma Extend(current: seq<string>, line: string, rest: seq<string>)
    requires AreLines([line] + rest) && AllComplete(current) && (forall l <- current :: !IsBlank(l)) && !IsBlank(line)
    ensures IsStanza(current + [line]) && (rest != [] ==> AllComplete(current + [line])) && AreLines(rest)
  {
    assert line == ([line] + rest)[0] && line in [line] + rest;
    assert forall l <- rest :: l in [line] + rest;
    assert forall i | 0 <= i < |rest| - 1 :: rest[i] == ([line] + rest)[i + 1];
    var s := current + [line];
    forall i | 0 <= i < |s| - 1 ensures IsComplete(s[i]) { assert s[i] in current; }
    forall l <- s ensures IsLine(l) { if l in current { assert IsComplete(l); } }
  }

  /** What the lines of a text give are stanzas. */
  lemma {:induction false} StanzasOfLines(lines: seq<string>, current: seq<string>)
    requires AreLines(lines) && (forall l <- current :: !IsBlank(l))
    requires current != [] ==> IsStanza(current)
    requires lines != [] ==> AllComplete(current)
    ensures AreStanzas(StanzasFrom(lines, current))
    decreases |lines|
  {
    hide IsBlank, IsLine, IsComplete;
    if lines != [] {
      assert lines == [lines[0]] + lines[1..];
      if IsBlank(lines[0]) {
        LinesTail(lines);
        StanzasOfLines(lines[1..], []);
      } else {
        Extend(current, lines[0], lines[1..]);
        StanzasOfLines(lines[1..], current + [lines[0]]);
      }
    }
  }

  lemma LinesTail(lines: seq<string>)
    requires lines != [] && AreLines(lines)
    ensures AreLines(lines[1..])
  {
    assert forall l <- lines[1..] :: l in lines;
    assert forall i | 0 <= i < |lines[1..]| - 1 :: lines[1..][i] == lines[i + 1];
  }

  // --------------------------------------------------------------------- fields

  /** Fields read so far, and the one a continuation line adds to. */
  datatype Fields = Fields(values: map<string, seq<string>>, key: Option<string>)

  /** What precedes the first colon, and what follows it. */
  function Before(line: string): string {
    if line == "" || line[0] == ':' then "" else [line[0]] + Before(line[1..])
  }

  function Behind(line: string): string {
    if line == "" then "" else if line[0] == ':' then line[1..] else Behind(line[1..])
  }

  function FieldStep(f: Fields, line: string): Fields
    requires f.key.Some? ==> f.key.value in f.values
  {
    if IsBlank(line) || IsComment(line) then f
    else if IsSpace(line[0]) && f.key.Some? && f.key.value != "" then
      f.(values := f.values[f.key.value := f.values[f.key.value] + Words(line)])
    else if ':' !in line then f.(key := None)
    else
      var key := Lower(RStrip(LStrip(Before(line))));
      Fields(f.values[key := Words(Behind(line))], Some(key))
  }

  lemma InitMembers(s: seq<string>, n: nat)
    requires n <= |s|
    ensures forall l <- s[..n] :: l in s
  {
    forall l <- s[..n] ensures l in s {
      var i :| 0 <= i < n && s[..n][i] == l;
      assert s[i] == l;
    }
  }

  function FieldsOf(s: seq<string>): (f: Fields)
    ensures f.key.Some? ==> f.key.value in f.values
  {
    if s == [] then Fields(map[], None)
    else
      FieldStep(FieldsOf(s[..|s| - 1]), s[|s| - 1])
  }

  method Deb822Fields(s: seq<string>) returns (fields: map<string, seq<string>>)
    ensures fields == FieldsOf(s).values
  {
    fields := map[];
    var current: Option<string> := None;
    assert s[..0] == [];
    for i := 0 to |s|
      invariant Fields(fields, current) == FieldsOf(s[..i])
    {
      var line := s[i];
      assert s[..i + 1][..i] == s[..i] && s[..i + 1][i] == line && line in s;
      if IsBlank(line) || IsComment(line) {
        continue;
      }
      if IsSpace(line[0]) && current.Some? && current.value != "" {
        fields := fields[current.value := fields[current.value] + Words(line)];
        continue;
      }
      if ':' !in line {
        current := None;
        continue;
      }
      var key := Lower(RStrip(LStrip(Before(line))));
      current := Some(key);
      fields := fields[key := Words(Behind(line))];
    }
    assert s[..|s|] == s;
  }

  function Get(f: map<string, seq<string>>, key: string): seq<string> {
    if key in f then f[key] else []
  }

  predicate HasType(types: seq<string>) {
    exists t <- types :: Lower(t) == "deb"
  }

  function Product(path: string, uris: seq<string>, suites: seq<string>, components: seq<string>): seq<Entry> {
    if uris == [] then []
    else WithUri(path, uris[0], suites, components) + Product(path, uris[1..], suites, components)
  }

  function WithUri(path: string, uri: string, suites: seq<string>, components: seq<string>): seq<Entry> {
    if suites == [] then [] else [Entry(path, uri, suites[0], components)] + WithUri(path, uri, suites[1..], components)
  }

  /**
   A stanza that is switched off, or not of type deb, has none. An empty `Enabled` value has no
   first word to look at.
   */
  function EntriesOf(f: map<string, seq<string>>, path: string): Option<seq<Entry>> {
    if "enabled" in f && f["enabled"] == [] then None
    else if "enabled" in f && Lower(f["enabled"][0]) == "no" then Some([])
    else if !HasType(Get(f, "types")) then Some([])
    else Some(Product(path, Get(f, "uris"), Get(f, "suites"), Get(f, "components")))
  }

  function ParseStanza(s: seq<string>, path: string): Option<seq<Entry>>
  {
    EntriesOf(FieldsOf(s).values, path)
  }

  // ----------------------------------------------------------- one missing break

  function Completed(line: string): string
  {
    if line != "" && line[|line| - 1] == '\n' then line else line + "\n"
  }

  function CompletedLast(s: seq<string>): seq<string>
    requires s != []
  {
    s[..|s| - 1] + [Completed(s[|s| - 1])]
  }

  lemma {:induction false} WordsIgnoreBreak(s: string)
    ensures Words(s + "\n") == Words(s)
    decreases |s|
  {
    if s == "" {
      WordsOfBlank("\n");
    } else if IsSpace(s[0]) {
      assert (s + "\n")[1..] == s[1..] + "\n";
      WordsIgnoreBreak(s[1..]);
    } else {
      var w := Word(s);
      var rest := s[|w|..];
      assert s == w + rest && s[..|w|] == w;
      WordTail(s);
      assert w + (rest + "\n") == s + "\n" && IsWord(w);
      WordsCons(w, rest + "\n");
      WordsIgnoreBreak(rest);
    }
  }

  lemma {:induction false} WordTail(s: string)
    ensures |Word(s)| <= |s| && (|Word(s)| < |s| ==> IsSpace(s[|Word(s)|]))
    ensures s != "" && !IsSpace(s[0]) ==> Word(s) != ""
  {
    if s != "" && !IsSpace(s[0]) { WordTail(s[1..]); }
  }

  lemma {:induction false} LStripIgnoresBreak(s: string)
    requires !IsBlank(s)
    ensures LStrip(s + "\n") == LStrip(s) + "\n" && LStrip(s) != ""
  {
    assert s != "";
    if IsSpace(s[0]) {
      assert (s + "\n")[1..] == s[1..] + "\n";
      var c :| c in s && !IsSpace(c);
      assert c in s[1..];
      LStripIgnoresBreak(s[1..]);
    }
  }

  lemma {:induction false} ColonIgnoresBreak(s: string)
    requires ':' in s
    ensures Before(s + "\n") == Before(s) && Behind(s + "\n") == Behind(s) + "\n"
  {
    if s[0] != ':' {
      assert (s + "\n")[1..] == s[1..] + "\n";
      ColonIgnoresBreak(s[1..]);
    } else {
      assert (s + "\n")[1..] == s[1..] + "\n";
    }
  }

  lemma StepIgnoresBreak(f: Fields, line: string)
    requires f.key.Some? ==> f.key.value in f.values
    ensures FieldStep(f, line + "\n") == FieldStep(f, line)
  {
    hide LStrip, RStrip, Words, Before, Behind, Lower;
    var longer := line + "\n";
    assert line != "" ==> longer[0] == line[0];
    WordsIgnoreBreak(line);
    if IsBlank(line) {
      assert IsBlank(longer) by { assert IsSpace('\n'); }
    } else {
      assert !IsBlank(longer) by { var c :| c in line && !IsSpace(c); assert c in longer; }
      LStripIgnoresBreak(line);
      assert ':' in longer <==> ':' in line;
      if ':' in line {
        ColonIgnoresBreak(line);
        WordsIgnoreBreak(Behind(line));
      }
    }
  }

  /** A line break missing at the end of the file makes no difference. */
  lemma CompletedParses(s: seq<string>, path: string)
    requires s != []
    ensures FieldsOf(CompletedLast(s)) == FieldsOf(s) && ParseStanza(CompletedLast(s), path) == ParseStanza(s, path)
  {
    hide FieldStep, EntriesOf;
    var init, last, longer := s[..|s| - 1], s[|s| - 1], CompletedLast(s);
    assert longer[..|longer| - 1] == init && longer[|longer| - 1] == Completed(last);
    if Completed(last) != last { StepIgnoresBreak(FieldsOf(init), last); }
    assert s[..|s| - 1] == init;
  }

  // ------------------------------------------------------------------- disabling

  function CommentLine(line: string): string {
    if IsComment(line) then line else DISABLED + line
  }

  function CommentLines(s: seq<string>): seq<string> {
    if s == [] then [] else [CommentLine(s[0])] + CommentLines(s[1..])
  }

  lemma {:induction false} CommentLinesAre(s: seq<string>)
    ensures |CommentLines(s)| == |s| && forall i | 0 <= i < |s| :: CommentLines(s)[i] == CommentLine(s[i])
  {
    if s != [] { CommentLinesAre(s[1..]); }
  }

  lemma CommentLineIs(line: string)
    requires IsLine(line)
    ensures IsComment(CommentLine(line)) && IsLine(CommentLine(line))
            && (IsComplete(line) ==> IsComplete(CommentLine(line)))
    ensures !IsBlank(CommentLine(line))
  {
    DisabledIsComment(line);
    OneDisabledLine(line);
    if IsComment(line) { CommentNotBlank(line); }
  }

  lemma {:induction false} CommentNotBlank(line: string)
    requires IsComment(line)
    ensures !IsBlank(line)
  {
    if IsSpace(line[0]) {
      CommentNotBlank(line[1..]);
      var c :| c in line[1..] && !IsSpace(c);
      assert c in line;
    } else {
      assert line[0] in line;
    }
  }

  lemma {:induction false} CommentsHaveNoFields(s: seq<string>)
    requires forall l <- s :: IsComment(l)
    ensures FieldsOf(s) == Fields(map[], None)
  {
    if s != [] {
      InitMembers(s, |s| - 1);
      assert s[|s| - 1] in s;
      CommentsHaveNoFields(s[..|s| - 1]);
    }
  }

  /** A commented stanza is still a stanza, and has no entries. */
  lemma CommentedStanza(s: seq<string>, path: string)
    requires IsStanza(s)
    ensures IsStanza(CommentLines(s)) && (AllComplete(s) ==> AllComplete(CommentLines(s)))
    ensures FieldsOf(CommentLines(s)) == Fields(map[], None) && ParseStanza(CommentLines(s), path) == Some([])
  {
    hide IsBlank, IsLine, IsComplete, IsComment, CommentLine;
    var c := CommentLines(s);
    CommentLinesAre(s);
    forall i | 0 <= i < |c|
      ensures IsLine(c[i]) && IsComment(c[i]) && !IsBlank(c[i]) && (IsComplete(s[i]) ==> IsComplete(c[i]))
    {
      assert s[i] in s;
      CommentLineIs(s[i]);
    }
    CommentsHaveNoFields(c);
    NoFieldsNoEntries(path);
  }

  lemma NoFieldsNoEntries(path: string)
    ensures EntriesOf(map[], path) == Some([])
  {
  }

  // ------------------------------------------------------------------- rewriting

  function Outcome(s: seq<string>, which: seq<string> -> bool): seq<string> {
    if which(s) then CommentLines(s) else s
  }

  /** Each stanza, commented or not, with a line break behind it. */
  function Rewritten(stanzas: seq<seq<string>>, which: seq<string> -> bool): string {
    if stanzas == [] then ""
    else (Join(Outcome(stanzas[0], which)) + "\n") + Rewritten(stanzas[1..], which)
  }

  function KeptStanzas(stanzas: seq<seq<string>>, which: seq<string> -> bool): seq<seq<string>> {
    if stanzas == [] then [] else (if which(stanzas[0]) then [] else [stanzas[0]]) + KeptStanzas(stanzas[1..], which)
  }

  function Combine(a: Option<seq<Entry>>, b: Option<seq<Entry>>): Option<seq<Entry>> {
    if a.None? || b.None? then None else Some(a.value + b.value)
  }

  function StanzaEntries(stanzas: seq<seq<string>>, path: string): Option<seq<Entry>> {
    if stanzas == [] then Some([]) else Combine(ParseStanza(stanzas[0], path), StanzaEntries(stanzas[1..], path))
  }

  predicate EndsComplete(s: seq<string>) {
    s != [] && s[|s| - 1] != "" && s[|s| - 1][|s[|s| - 1]| - 1] == '\n'
  }

  /** The lines a stanza followed by a line break is read back as. */
  function OutLines(s: seq<string>): seq<string>
    requires s != []
  {
    if EndsComplete(s) then s + ["\n"] else CompletedLast(s)
  }

  lemma JoinLast(init: seq<string>, last: string)
    ensures Join(init + [last]) == Join(init) + last
  {
    JoinConcat(init, [last]);
    assert [last][1..] == [];
  }

  lemma OutLinesAre(s: seq<string>)
    requires IsStanza(s)
    ensures AllComplete(OutLines(s)) && Join(OutLines(s)) == Join(s) + "\n"
  {
    hide IsBlank;
    var init, last := s[..|s| - 1], s[|s| - 1];
    assert s == init + [last] && last in s;
    JoinLast(init, last);
    forall l <- init ensures IsComplete(l) {
      var i :| 0 <= i < |init| && init[i] == l;
      assert s[i] == l;
    }
    if EndsComplete(s) {
      JoinLast(s, "\n");
      assert IsComplete("\n") && IsComplete(last);
    } else {
      JoinLast(init, last + "\n");
      assert (Join(init) + last) + "\n" == Join(init) + (last + "\n");
      assert IsComplete(last + "\n");
    }
  }

  lemma OutcomeIsStanza(s: seq<string>, which: seq<string> -> bool, path: string)
    requires IsStanza(s)
    ensures IsStanza(Outcome(s, which)) && (AllComplete(s) ==> AllComplete(Outcome(s, which)))
  {
    CommentedStanza(s, path);
  }

  function AllOut(stanzas: seq<seq<string>>, which: seq<string> -> bool): seq<string>
    requires forall s <- stanzas :: Outcome(s, which) != []
  {
    if stanzas == [] then []
    else
      assert stanzas[0] in stanzas;
      OutLines(Outcome(stanzas[0], which)) + AllOut(stanzas[1..], which)
  }

  lemma NotEmptyOutcomes(stanzas: seq<seq<string>>, which: seq<string> -> bool)
    requires forall s <- stanzas :: IsStanza(s)
    ensures forall s <- stanzas :: Outcome(s, which) != []
  {
    forall s <- stanzas ensures Outcome(s, which) != [] { OutcomeIsStanza(s, which, ""); }
  }

  lemma {:induction false} RewrittenLines(stanzas: seq<seq<string>>, which: seq<string> -> bool)
    requires forall s <- stanzas :: IsStanza(s)
    ensures forall s <- stanzas :: Outcome(s, which) != []
    ensures AllComplete(AllOut(stanzas, which)) && Join(AllOut(stanzas, which)) == Rewritten(stanzas, which)
  {
    hide IsStanza, Outcome, OutLines;
    NotEmptyOutcomes(stanzas, which);
    if stanzas != [] {
      assert stanzas[0] in stanzas;
      OutcomeIsStanza(stanzas[0], which, "");
      OutLinesAre(Outcome(stanzas[0], which));
      RewrittenLines(stanzas[1..], which);
      JoinConcat(OutLines(Outcome(stanzas[0], which)), AllOut(stanzas[1..], which));
    }
  }

  lemma {:induction false} RunOf(s: seq<string>, rest: seq<string>, current: seq<string>)
    requires forall l <- s :: !IsBlank(l)
    ensures StanzasFrom(s + rest, current) == StanzasFrom(rest, current + s)
    decreases |s|
  {
    hide IsBlank;
    if s == [] {
      assert s + rest == rest && current + s == current;
    } else {
      assert (s + rest)[0] == s[0] && (s + rest)[1..] == s[1..] + rest && s[0] in s;
      RunOf(s[1..], rest, current + [s[0]]);
      assert (current + [s[0]]) + s[1..] == current + s;
    }
  }

  /** What a stanza comes back as when the text is read again. */
  function Reread(s: seq<string>): seq<string> {
    if EndsComplete(s) || s == [] then s else CompletedLast(s)
  }

  lemma OneReread(s: seq<string>, rest: seq<string>)
    requires IsStanza(s) && (rest != [] ==> EndsComplete(s))
    ensures StanzasFrom(OutLines(s) + rest, []) == [Reread(s)] + StanzasFrom(rest, [])
  {
    if EndsComplete(s) {
      RunOf(s, ["\n"] + rest, []);
      assert (s + ["\n"]) + rest == s + (["\n"] + rest) && [] + s == s;
      assert (["\n"] + rest)[1..] == rest;
      assert IsBlank("\n") by { assert IsSpace('\n'); }
    } else {
      assert rest == [];
      CompletedNotBlank(s);
      RunOf(CompletedLast(s), [], []);
      assert OutLines(s) + rest == CompletedLast(s) + [] && [] + CompletedLast(s) == CompletedLast(s);
    }
  }

  lemma CompletedNotBlank(s: seq<string>)
    requires s != [] && forall l <- s :: !IsBlank(l)
    ensures forall l <- CompletedLast(s) :: !IsBlank(l)
  {
    var last := s[|s| - 1];
    assert last in s;
    var c :| c in last && !IsSpace(c);
    assert c in Completed(last);
    InitMembers(s, |s| - 1);
  }

  /** The stanzas of a rewritten text. */
  function RereadAll(stanzas: seq<seq<string>>, which: seq<string> -> bool): seq<seq<string>> {
    if stanzas == [] then [] else [Reread(Outcome(stanzas[0], which))] + RereadAll(stanzas[1..], which)
  }

  lemma {:induction false} RewrittenStanzas(stanzas: seq<seq<string>>, which: seq<string> -> bool)
    requires AreStanzas(stanzas) && forall s <- stanzas :: Outcome(s, which) != []
    ensures StanzasFrom(AllOut(stanzas, which), []) == RereadAll(stanzas, which)
  {
    hide IsBlank, CommentLines, OutLines, Reread, IsLine, IsComplete;
    if stanzas != [] {
      var s, rest := stanzas[0], stanzas[1..];
      var o, later := Outcome(s, which), AllOut(rest, which);
      assert s in stanzas && (forall t <- rest :: t in stanzas) && forall i | 0 <= i < |rest| - 1 ::
        rest[i] == stanzas[i + 1];
      OutcomeIsStanza(s, which, "");
      if rest == [] { assert later == []; } else { EndsWhenComplete(o); }
      OneReread(o, later);
      RewrittenStanzas(rest, which);
    }
  }

  lemma {:induction false} RereadParses(stanzas: seq<seq<string>>, which: seq<string> -> bool, path: string)
    requires forall s <- stanzas :: IsStanza(s)
    ensures StanzaEntries(RereadAll(stanzas, which), path) == StanzaEntries(KeptStanzas(stanzas, which), path)
  {
    hide IsStanza, ParseStanza, CommentLines, Reread, FieldsOf;
    if stanzas != [] {
      var s, rest := stanzas[0], stanzas[1..];
      assert s in stanzas && forall t <- rest :: t in stanzas;
      var tail := RereadAll(rest, which);
      RereadParses(rest, which, path);
      OutcomeIsStanza(s, which, path);
      StanzaNotEmpty(Outcome(s, which));
      RereadOne(Outcome(s, which), path);
      assert RereadAll(stanzas, which)[1..] == tail;
      if which(s) {
        CommentedStanza(s, path);
        CombineNothing(StanzaEntries(tail, path));
        assert [] + KeptStanzas(rest, which) == KeptStanzas(rest, which);
      } else {
        assert KeptStanzas(stanzas, which)[1..] == KeptStanzas(rest, which);
      }
    }
  }

  lemma StanzaNotEmpty(s: seq<string>)
    requires IsStanza(s)
    ensures s != []
  {
  }

  lemma CombineNothing(b: Option<seq<Entry>>)
    ensures Combine(Some([]), b) == b
  {
    if b.Some? { assert [] + b.value == b.value; }
  }

  lemma EndsWhenComplete(s: seq<string>)
    requires s != [] && AllComplete(s)
    ensures EndsComplete(s)
  {
    assert s[|s| - 1] in s;
  }

  lemma RereadOne(s: seq<string>, path: string)
    requires s != []
    ensures FieldsOf(Reread(s)) == FieldsOf(s) && ParseStanza(Reread(s), path) == ParseStanza(s, path)
  {
    CompletedParses(s, path);
  }

  lemma RewrittenText(content: string, which: seq<string> -> bool)
    ensures var stanzas := StanzasFrom(SplitLines(content), []);
            (forall s <- stanzas :: IsStanza(s))
            && StanzasFrom(SplitLines(Rewritten(stanzas, which)), []) == RereadAll(stanzas, which)
  {
    hide *;
    var stanzas := StanzasFrom(SplitLines(content), []);
    StanzasStart(content);
    StanzasMembers(stanzas);
    RewrittenLines(stanzas, which);
    CompleteAreLines(AllOut(stanzas, which));
    SplitJoined(AllOut(stanzas, which));
    RewrittenStanzas(stanzas, which);
  }

  /** Disabling stanzas commutes with parsing: the entries are those of the kept stanzas. */
  lemma RewrittenTextParses(content: string, which: seq<string> -> bool, path: string)
    ensures var stanzas := StanzasFrom(SplitLines(content), []);
            StanzaEntries(StanzasFrom(SplitLines(Rewritten(stanzas, which)), []), path)
              == StanzaEntries(KeptStanzas(stanzas, which), path)
  {
    hide *;
    RewrittenText(content, which);
    RereadParses(StanzasFrom(SplitLines(content), []), which, path);
  }

  lemma StanzasStart(content: string)
    ensures AreStanzas(StanzasFrom(SplitLines(content), []))
  {
    StanzasOfLines(SplitLines(content), []);
  }

  lemma StanzasMembers(stanzas: seq<seq<string>>)
    requires AreStanzas(stanzas)
    ensures forall s <- stanzas :: IsStanza(s)
  {
  }

  lemma CompleteAreLines(lines: seq<string>)
    requires AllComplete(lines)
    ensures AreLines(lines)
  {
    assert forall i | 0 <= i < |lines| :: lines[i] in lines;
  }

  /** A property of fields that empty fields lack: no stanza of the rewritten text has it when no kept one had it. */
  lemma {:induction false} RereadLacks(
    stanzas: seq<seq<string>>, which: seq<string> -> bool, marked: map<string, seq<string>> -> bool)
    requires (forall s <- stanzas :: IsStanza(s)) && !marked(map[])
    requires forall s <- stanzas | !which(s) :: !marked(FieldsOf(s).values)
    ensures forall t <- RereadAll(stanzas, which) :: !marked(FieldsOf(t).values)
  {
    hide IsStanza, CommentLines, Reread, FieldsOf;
    if stanzas != [] {
      var s, rest := stanzas[0], stanzas[1..];
      assert s in stanzas && forall t <- rest :: t in stanzas;
      RereadLacks(rest, which, marked);
      OutcomeIsStanza(s, which, "");
      StanzaNotEmpty(Outcome(s, which));
      RereadOne(Outcome(s, which), "");
      if which(s) { CommentedStanza(s, ""); }
      var t := Reread(Outcome(s, which));
      assert !marked(FieldsOf(t).values);
      assert forall u <- RereadAll(stanzas, which) :: u == t || u in RereadAll(rest, which);
    }
  }
}
