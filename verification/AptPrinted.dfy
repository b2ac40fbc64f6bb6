/**
 What APT source files say: whatever is written as fields of words is read back as these
 words, and gives the entries that `sources.list(5)` makes of them.
 */
module AptPrinted {
  import opened Wrappers
  import opened PyText
  import opened AptText
  import opened AptStanzas
  import opened AptSources
  import opened AptRepair

  // ------------------------------------------------------------------- letter case

  /** The same character, or the same letter in the other case. */
  predicate SameLetter(a: char, b: char) {
    a == b || ('A' <= a <= 'Z' && b as int == a as int + 32) || ('A' <= b <= 'Z' && a as int == b as int + 32)
  }

  /** Words are equal in lower case exactly when they differ in the case of letters alone. */
  lemma LowerSameExactlyWhen(a: string, b: string)
    ensures Lower(a) == Lower(b) <==> |a| == |b| && forall i | 0 <= i < |a| :: SameLetter(a[i], b[i])
  {
    LowerAt(a);
    LowerAt(b);
    hide Lower, LowerChar;
    if |a| == |b| {
      forall i | 0 <= i < |a| ensures Lower(a)[i] == Lower(b)[i] <==> SameLetter(a[i], b[i]) {
        CharSame(a[i], b[i]);
      }
      SameString(Lower(a), Lower(b));
    }
  }

  lemma SameString(a: string, b: string)
    requires |a| == |b|
    ensures a == b <==> forall i | 0 <= i < |a| :: a[i] == b[i]
  {
  }

  lemma CharSame(a: char, b: char)
    ensures LowerChar(a) == LowerChar(b) <==> SameLetter(a, b)
  {
  }

  lemma {:induction false} LowerAt(s: string)
    ensures forall i | 0 <= i < |s| :: Lower(s)[i] == LowerChar(s[i])
  {
    if s != "" { LowerAt(s[1..]); }
  }

  // ------------------------------------------------------------------ printed fields

  /** A line below a field: more words for it, or a comment. */
  datatype Below = Added(words: seq<string>) | Remark(text: string)
  {
    predicate Valid() {
      match this
      case Added(ws) => ws != [] && (forall w <- ws :: IsWord(w)) && ws[0] != "" && ws[0][0] != '#'
      case Remark(text) => '\n' !in text
    }

    function Print(): string {
      match this
      case Added(ws) => [' '] + (Spaced(ws) + "\n")
      case Remark(text) => ['#'] + (text + "\n")
    }
  }

  datatype Field = Field(name: string, words: seq<string>, below: seq<Below>)
  {
    predicate Valid() {
      && IsWord(name) && ':' !in name && name[0] != '#'
      && (forall w <- words :: IsWord(w)) && forall b <- below :: b.Valid()
    }
  }

  function PrintBelow(below: seq<Below>): seq<string> {
    if below == [] then [] else PrintBelow(below[..|below| - 1]) + [below[|below| - 1].Print()]
  }

  /** The lines of a stanza. */
  function Print(fields: seq<Field>): seq<string> {
    if fields == [] then []
    else
      var f := fields[|fields| - 1];
      Print(fields[..|fields| - 1]) + [FieldText(f.name, f.words)] + PrintBelow(f.below)
  }

  function WordsBelow(below: seq<Below>): seq<string> {
    if below == [] then []
    else
      var b := below[|below| - 1];
      WordsBelow(below[..|below| - 1]) + (if b.Added? then b.words else [])
  }

  /** Each name, in lower case, stands for all the words of the last field so named. */
  function Meaning(fields: seq<Field>): map<string, seq<string>> {
    if fields == [] then map[]
    else
      var f := fields[|fields| - 1];
      Meaning(fields[..|fields| - 1])[Lower(f.name) := f.words + WordsBelow(f.below)]
  }

  lemma AddedLine(f: Fields, key: string, ws: seq<string>)
    requires f.key == Some(key) && key != "" && key in f.values
    requires Added(ws).Valid()
    ensures FieldStep(f, Added(ws).Print()) == f.(values := f.values[key := f.values[key] + ws])
  {
    hide Words, Spaced;
    SpaceFirst(ws);
    SpacedIsLine(ws);
    var rest := Spaced(ws) + "\n";
    var line := [' '] + rest;
    FirstOfSpaced(ws);
    assert rest[0] == ws[0][0] && ws[0][0] in ws[0];
    assert line[1..] == rest && LStrip(line) == LStrip(rest) == rest;
    assert !IsBlank(line) by { assert line[1] == rest[0] && line[1] in line; }
  }

  lemma FirstOfSpaced(ws: seq<string>)
    requires ws != [] && ws[0] != ""
    ensures Spaced(ws) != "" && Spaced(ws)[0] == ws[0][0]
  {
  }

  lemma RemarkLine(f: Fields, text: string)
    requires f.key.Some? ==> f.key.value in f.values
    ensures FieldStep(f, Remark(text).Print()) == f && IsComment(Remark(text).Print())
  {
    var line := ['#'] + (text + "\n");
    assert line[0] == '#' && !IsSpace('#') && LStrip(line) == line;
  }

  lemma NamedLine(f: Fields, name: string, words: seq<string>)
    requires f.key.Some? ==> f.key.value in f.values
    requires Field(name, words, []).Valid()
    ensures FieldStep(f, FieldText(name, words)) == Fields(f.values[Lower(name) := words], Some(Lower(name)))
  {
    hide FieldStep, FieldText, Lower;
    if words == [] { EmptyFieldLine(f, name, Lower(name)); } else { FieldLine(f, name, Lower(name), words); }
  }

  lemma {:induction false} BelowRead(s: seq<string>, key: string, below: seq<Below>)
    requires FieldsOf(s).key == Some(key) && key != "" && forall b <- below :: b.Valid()
    ensures FieldsOf(s).key == Some(key) && key in FieldsOf(s).values
    ensures FieldsOf(s + PrintBelow(below))
         == FieldsOf(s).(values := FieldsOf(s).values[key := FieldsOf(s).values[key] + WordsBelow(below)])
  {
    hide FieldStep, FieldsOf, Below.Valid, Below.Print;
    var f := FieldsOf(s);
    if below == [] {
      assert s + [] == s && f.values[key] + [] == f.values[key] && f.values[key := f.values[key]] == f.values;
    } else {
      var init, b := below[..|below| - 1], below[|below| - 1];
      assert b in below && forall x <- init :: x in below;
      BelowRead(s, key, init);
      assert s + PrintBelow(below) == (s + PrintBelow(init)) + [b.Print()];
      FieldsSnoc(s + PrintBelow(init), b.Print());
      var g := FieldsOf(s + PrintBelow(init));
      var before := f.values[key] + WordsBelow(init);
      if b.Added? {
        AddedLine(g, key, b.words);
        assert before + b.words == f.values[key] + (WordsBelow(init) + b.words);
      } else {
        RemarkLine(g, b.text);
        assert WordsBelow(init) + [] == WordsBelow(init);
      }
    }
  }

  /** The fields read are the fields written. */
  lemma {:induction false} FieldsAreRead(fields: seq<Field>)
    requires forall f <- fields :: f.Valid()
    ensures FieldsOf(Print(fields)).values == Meaning(fields)
  {
    hide FieldStep, FieldsOf, FieldText, Lower;
    if fields == [] {
      NoFields();
    } else {
      var init, f := fields[..|fields| - 1], fields[|fields| - 1];
      assert f in fields && forall x <- init :: x in fields;
      FieldsAreRead(init);
      var s := Print(init) + [FieldText(f.name, f.words)];
      FieldsSnoc(Print(init), FieldText(f.name, f.words));
      NamedLine(FieldsOf(Print(init)), f.name, f.words);
      BelowRead(s, Lower(f.name), f.below);
      assert Print(fields) == s + PrintBelow(f.below);
    }
  }

  // ---------------------------------------------------------------------- entries

  /** One entry for each URI and suite: suite by suite, URI by URI. */
  ghost predicate Grid(
    entries: seq<Entry>, path: string, uris: seq<string>, suites: seq<string>, components: seq<string>)
  {
    && |entries| == |uris| * |suites|
    && forall i: nat, j: nat | i < |uris| && j < |suites| ::
         HasAt(entries, i * |suites| + j, Entry(path, uris[i], suites[j], components))
  }

  predicate HasAt(entries: seq<Entry>, k: nat, e: Entry) { k < |entries| && entries[k] == e }

  lemma {:induction false} RowIs(path: string, uri: string, suites: seq<string>, components: seq<string>)
    ensures var row := WithUri(path, uri, suites, components);
            |row| == |suites| && forall j | 0 <= j < |suites| :: row[j] == Entry(path, uri, suites[j], components)
  {
    if suites != [] { RowIs(path, uri, suites[1..], components); }
  }

  lemma {:induction false} ProductSize(path: string, uris: seq<string>, suites: seq<string>, components: seq<string>)
    ensures |Product(path, uris, suites, components)| == |uris| * |suites|
  {
    if uris != [] {
      RowIs(path, uris[0], suites, components);
      ProductSize(path, uris[1..], suites, components);
      OneMoreRow(|uris|, |suites|);
    }
  }

  lemma OneMoreRow(i: nat, n: nat)
    requires i > 0
    ensures i * n == n + (i - 1) * n
  {
  }

  lemma BehindRow(row: seq<Entry>, rest: seq<Entry>, k: nat, e: Entry)
    requires HasAt(rest, k, e)
    ensures HasAt(row + rest, |row| + k, e)
  {
  }

  lemma {:induction false} ProductAt(
    path: string, uris: seq<string>, suites: seq<string>, components: seq<string>, i: nat, j: nat)
    requires i < |uris| && j < |suites|
    ensures HasAt(Product(path, uris, suites, components), i * |suites| + j,
                  Entry(path, uris[i], suites[j], components))
    decreases i
  {
    RowIs(path, uris[0], suites, components);
    if i > 0 {
      hide HasAt;
      OneMoreRow(i, |suites|);
      ProductAt(path, uris[1..], suites, components, i - 1, j);
      BehindRow(WithUri(path, uris[0], suites, components), Product(path, uris[1..], suites, components),
                (i - 1) * |suites| + j, Entry(path, uris[i], suites[j], components));
    }
  }

  lemma ProductIsGrid(path: string, uris: seq<string>, suites: seq<string>, components: seq<string>)
    ensures Grid(Product(path, uris, suites, components), path, uris, suites, components)
  {
    hide Product, HasAt;
    ProductSize(path, uris, suites, components);
    forall i: nat, j: nat | i < |uris| && j < |suites|
      ensures HasAt(Product(path, uris, suites, components), i * |suites| + j,
                    Entry(path, uris[i], suites[j], components))
    {
      ProductAt(path, uris, suites, components, i, j);
    }
  }

  function At(m: map<string, seq<string>>, key: string): seq<string> { if key in m then m[key] else [] }

  /** Some type is deb, and the stanza is not switched off. */
  ghost predicate Active(m: map<string, seq<string>>) {
    && (exists t <- At(m, "types") :: Lower(t) == "deb")
    && ("enabled" in m ==> m["enabled"] != [] && Lower(m["enabled"][0]) != "no")
  }

  /**
   Whatever stanza is written, and in whatever order and case: it cannot be read exactly when its
   `Enabled` is empty; otherwise it gives the entries of its URIs and suites when it is active,
   and none when it is not.
   */
  lemma PrintedStanzaParses(fields: seq<Field>, path: string)
    requires forall f <- fields :: f.Valid()
    ensures var m, r := Meaning(fields), ParseStanza(Print(fields), path);
            && (r.None? <==> "enabled" in m && m["enabled"] == [])
            && (r.Some? && !Active(m) ==> r.value == [])
            && (r.Some? && Active(m) ==> Grid(r.value, path, At(m, "uris"), At(m, "suites"), At(m, "components")))
  {
    hide FieldsOf, Product, Lower, Grid;
    FieldsAreRead(fields);
    var m := Meaning(fields);
    ProductIsGrid(path, At(m, "uris"), At(m, "suites"), At(m, "components"));
  }

  // -------------------------------------------------------------------- whole files

  lemma {:induction false} BelowComplete(below: seq<Below>)
    requires forall b <- below :: b.Valid()
    ensures forall l <- PrintBelow(below) :: IsComplete(l) && !IsBlank(l)
  {
    hide Below.Valid, Below.Print, IsComplete, IsBlank;
    if below != [] {
      var init, b := below[..|below| - 1], below[|below| - 1];
      assert b in below && forall x <- init :: x in below;
      BelowComplete(init);
      LineBelowComplete(b);
    }
  }

  lemma LineBelowComplete(b: Below)
    requires b.Valid()
    ensures IsComplete(b.Print()) && !IsBlank(b.Print())
  {
    match b {
      case Added(ws) =>
        SpacedNoBreak(ws);
        BreakAtEnd([' '] + Spaced(ws));
        FirstOfSpaced(ws);
        assert IsWord(ws[0]) && !IsSpace(ws[0][0]) by { assert ws[0] in ws && ws[0][0] in ws[0]; }
        assert b.Print() == ([' '] + Spaced(ws)) + "\n";
        assert b.Print()[1] == ws[0][0] && ws[0][0] in ws[0] && b.Print()[1] in b.Print();
      case Remark(text) =>
        BreakAtEnd(['#'] + text);
        assert b.Print() == (['#'] + text) + "\n";
        assert b.Print()[0] == '#' && '#' in b.Print();
    }
  }

  lemma NamedComplete(name: string, words: seq<string>)
    requires Field(name, words, []).Valid()
    ensures IsComplete(FieldText(name, words)) && !IsBlank(FieldText(name, words))
  {
    hide Spaced;
    SpacedNoBreak(words);
    var text := name + ([':'] + ([' '] + Spaced(words)));
    assert '\n' !in name by { assert IsSpace('\n'); }
    BreakAtEnd(text);
    assert FieldText(name, words) == text + "\n";
    assert name[0] in name && FieldText(name, words)[0] == name[0] && name[0] in FieldText(name, words);
  }

  lemma {:induction false} StanzaComplete(fields: seq<Field>)
    requires forall f <- fields :: f.Valid()
    ensures forall l <- Print(fields) :: IsComplete(l) && !IsBlank(l)
    ensures fields != [] ==> Print(fields) != []
  {
    hide FieldText, IsComplete, IsBlank, PrintBelow;
    if fields != [] {
      var init, f := fields[..|fields| - 1], fields[|fields| - 1];
      assert f in fields && forall x <- init :: x in fields;
      StanzaComplete(init);
      NamedComplete(f.name, f.words);
      BelowComplete(f.below);
    }
  }

  /** Stanzas with an empty line behind each. */
  function PrintAll(stanzas: seq<seq<Field>>): seq<string> {
    if stanzas == [] then [] else Print(stanzas[0]) + (["\n"] + PrintAll(stanzas[1..]))
  }

  ghost predicate ValidStanzas(stanzas: seq<seq<Field>>) {
    forall s <- stanzas :: s != [] && forall f <- s :: f.Valid()
  }

  lemma {:induction false} StanzasAreRead(stanzas: seq<seq<Field>>)
    requires ValidStanzas(stanzas)
    ensures AllComplete(PrintAll(stanzas))
    ensures StanzasFrom(PrintAll(stanzas), []) == seq(|stanzas|, i requires 0 <= i < |stanzas| => Print(stanzas[i]))
  {
    hide Print, IsComplete, IsBlank, Field.Valid;
    if stanzas != [] {
      var s, rest := stanzas[0], stanzas[1..];
      assert s in stanzas && forall x <- rest :: x in stanzas;
      StanzaComplete(s);
      StanzasAreRead(rest);
      EmptyLineComplete();
      BlankThen(Print(s), PrintAll(rest));
    }
  }

  /** The entries of a file are those of its stanzas, one behind the other. */
  lemma PrintedFileParses(stanzas: seq<seq<Field>>, path: string)
    requires ValidStanzas(stanzas)
    ensures var f := Source(path, true, Join(PrintAll(stanzas)));
            && StanzasOf(f) == seq(|stanzas|, i requires 0 <= i < |stanzas| => Print(stanzas[i]))
            && FileEntries(f) == AllEntries(stanzas, path)
  {
    hide PrintAll, Print, StanzasFrom, SplitLines, ValidStanzas, ParseStanza, Field.Valid;
    StanzasAreRead(stanzas);
    CompleteAreLines(PrintAll(stanzas));
    SplitJoined(PrintAll(stanzas));
    EntriesOfStanzas(stanzas, path);
  }

  function AllEntries(stanzas: seq<seq<Field>>, path: string): Option<seq<Entry>> {
    if stanzas == [] then Some([])
    else
      var first, rest := ParseStanza(Print(stanzas[0]), path), AllEntries(stanzas[1..], path);
      if first.None? || rest.None? then None else Some(first.value + rest.value)
  }

  lemma {:induction false} EntriesOfStanzas(stanzas: seq<seq<Field>>, path: string)
    ensures StanzaEntries(seq(|stanzas|, i requires 0 <= i < |stanzas| => Print(stanzas[i])), path)
         == AllEntries(stanzas, path)
  {
    hide Print, ParseStanza;
    if stanzas != [] {
      var printed := seq(|stanzas|, i requires 0 <= i < |stanzas| => Print(stanzas[i]));
      EntriesOfStanzas(stanzas[1..], path);
      assert printed[1..] == seq(|stanzas[1..]|, i requires 0 <= i < |stanzas[1..]| => Print(stanzas[1..][i]));
    }
  }

  // -------------------------------------------------------------------- one-line sources

  /** Nothing, or tokens from an opening bracket to the first one that ends in a closing bracket. */
  ghost predicate IsOptions(o: seq<string>) {
    || o == []
    || (StartsWith(o[0], "[") && EndsWith(o[|o| - 1], "]") && forall i | 0 <= i < |o| - 1 :: !EndsWith(o[i], "]"))
  }

  /** `deb`, options, URI, suite, components. */
  ghost predicate Reads(tokens: seq<string>, options: seq<string>, e: Entry) {
    && IsOptions(options) && (options == [] ==> !StartsWith(e.uri, "["))
    && tokens == ["deb"] + options + [e.uri, e.suite] + e.components
  }

  lemma {:induction false} OptionsEnd(tokens: seq<string>, k: nat)
    requires k <= |tokens|
    ensures var n := AfterOptions(tokens, k);
            && n > k && (n <= |tokens| ==> EndsWith(tokens[n - 1], "]"))
            && (forall i | k <= i < n - 1 && i < |tokens| :: !EndsWith(tokens[i], "]"))
            && n <= |tokens| + 1
    decreases |tokens| - k
  {
    hide EndsWith;
    if k < |tokens| && !EndsWith(tokens[k], "]") { OptionsEnd(tokens, k + 1); }
  }

  lemma {:induction false} OptionsEndAt(tokens: seq<string>, k: nat, n: nat)
    requires k < n <= |tokens| && EndsWith(tokens[n - 1], "]") && forall i | k <= i < n - 1 :: !EndsWith(tokens[i], "]")
    ensures AfterOptions(tokens, k) == n
    decreases n - k
  {
    hide EndsWith;
    if k < n - 1 { OptionsEndAt(tokens, k + 1, n); }
  }

  lemma Pieces(tokens: seq<string>, k: nat)
    requires 1 <= k < |tokens| - 1
    ensures tokens == [tokens[0]] + tokens[1..k] + [tokens[k], tokens[k + 1]] + tokens[k + 2..]
  {
  }

  lemma UriBehind(tokens: seq<string>)
    ensures UriIndex(tokens) >= 1
  {
    hide StartsWith, EndsWith;
    if 1 < |tokens| { OptionsEnd(tokens, 1); }
  }

  lemma EntryReads(tokens: seq<string>, k: nat, e: Entry)
    requires tokens != [] && tokens[0] == "deb" && 1 <= k == UriIndex(tokens) < |tokens| - 1
    requires e.uri == tokens[k] && e.suite == tokens[k + 1] && e.components == tokens[k + 2..]
    ensures Reads(tokens, tokens[1..k], e)
  {
    hide StartsWith, EndsWith;
    if StartsWith(tokens[1], "[") { OptionsEnd(tokens, 1); }
    Pieces(tokens, k);
  }

  lemma ReadsIndex(tokens: seq<string>, options: seq<string>, e: Entry)
    requires Reads(tokens, options, e)
    ensures UriIndex(tokens) == 1 + |options|
  {
    hide StartsWith, EndsWith;
    TokensAre(tokens, options, e);
    if options != [] {
      assert tokens[1] == options[0] && tokens[|options|] == options[|options| - 1];
      assert forall i | 1 <= i < |options| :: tokens[i] == options[i - 1];
      OptionsEndAt(tokens, 1, 1 + |options|);
    }
  }

  ghost predicate IsSource(tokens: seq<string>, e: Entry) {
    exists options :: Reads(tokens, options, e)
  }

  lemma ParsesIsSource(tokens: seq<string>, e: Entry)
    requires tokens != [] && tokens[0] == "deb" && UriIndex(tokens) < |tokens| - 1
    requires var k := UriIndex(tokens);
             e.uri == tokens[k] && e.suite == tokens[k + 1] && e.components == tokens[k + 2..]
    ensures IsSource(tokens, e)
  {
    hide UriIndex, StartsWith, EndsWith;
    UriBehind(tokens);
    EntryReads(tokens, UriIndex(tokens), e);
    var options := tokens[1..UriIndex(tokens)];
    assert Reads(tokens, options, e);
  }

  lemma SourceParses(tokens: seq<string>, e: Entry)
    requires IsSource(tokens, e)
    ensures tokens != [] && tokens[0] == "deb" && 1 <= UriIndex(tokens) < |tokens| - 1
    ensures var k := UriIndex(tokens);
            e.uri == tokens[k] && e.suite == tokens[k + 1] && e.components == tokens[k + 2..]
  {
    hide UriIndex, StartsWith, EndsWith;
    var options :| Reads(tokens, options, e);
    ReadsIndex(tokens, options, e);
    TokensAre(tokens, options, e);
  }

  /** A line gives an entry exactly when its tokens are those of a source, and then it is that source. */
  lemma LineParsesExactlyWhen(line: string, path: string, e: Entry)
    ensures ParseLine(line, path) == Some(e) <==>
            && (StartsWith(LStrip(line), "deb ") || StartsWith(LStrip(line), "deb\t")) && e.path == path
            && IsSource(Words(Uncommented(LStrip(line))), e)
  {
    hide Words, Uncommented, LStrip, StartsWith, EndsWith, UriIndex, IsSource;
    var tokens := Tokens(LStrip(line));
    UriBehind(tokens);
    if ParseLine(line, path) == Some(e) { ParsesIsSource(tokens, e); }
    if IsSource(tokens, e) { SourceParses(tokens, e); }
  }

  lemma TokensAre(tokens: seq<string>, options: seq<string>, e: Entry)
    requires Reads(tokens, options, e)
    ensures |tokens| == 3 + |options| + |e.components| && tokens[0] == "deb"
    ensures forall i | 0 <= i < |options| :: tokens[i + 1] == options[i]
    ensures tokens[1 + |options|] == e.uri && tokens[2 + |options|] == e.suite
            && tokens[3 + |options|..] == e.components
  {
  }

  /** A source as it is usually written, with whatever comment behind it, is read. */
  lemma PrintedLineParses(options: seq<string>, e: Entry, comment: string)
    requires IsOptions(options) && (options == [] ==> !StartsWith(e.uri, "["))
    requires forall w <- ["deb"] + options + [e.uri, e.suite] + e.components :: IsWord(w) && '#' !in w
    ensures var text := Spaced(["deb"] + options + [e.uri, e.suite] + e.components) + "\n";
            && ParseLine(text, e.path) == Some(e)
            && ParseLine(text + (['#'] + comment), e.path) == Some(e)
  {
    hide Words, Uncommented, IsWord, ParseLine;
    var tokens := ["deb"] + options + [e.uri, e.suite] + e.components;
    var text := Spaced(tokens) + "\n";
    assert IsSource(tokens, e) by { assert Reads(tokens, options, e); }
    WordsOfLine(tokens);
    DebFirst(tokens);
    NoHash(tokens);
    Uncommenting(text, comment);
    DebBegins(text, text);
    DebBegins(text, text + (['#'] + comment));
    LineParsesExactlyWhen(text, e.path, e);
    LineParsesExactlyWhen(text + (['#'] + comment), e.path, e);
  }

  lemma DebFirst(tokens: seq<string>)
    requires |tokens| > 1 && tokens[0] == "deb"
    ensures StartsWith(Spaced(tokens) + "\n", "deb ")
  {
    hide Spaced;
    assert Spaced(tokens) == tokens[0] + ([' '] + Spaced(tokens[1..])) by { SpacedSplits(tokens); }
    assert (Spaced(tokens) + "\n")[..4] == "deb ";
  }

  lemma SpacedSplits(tokens: seq<string>)
    requires |tokens| > 1
    ensures Spaced(tokens) == tokens[0] + ([' '] + Spaced(tokens[1..]))
  {
  }

  lemma DebBegins(text: string, line: string)
    requires StartsWith(text, "deb ") && text <= line
    ensures LStrip(line) == line && StartsWith(line, "deb ")
  {
    assert line[..4] == text[..4];
    assert line[0] == "deb "[0] == 'd';
  }

  lemma {:induction false} NoHash(words: seq<string>)
    requires forall w <- words :: '#' !in w
    ensures '#' !in Spaced(words) + "\n"
  {
    if |words| > 1 {
      assert words[0] in words && forall w <- words[1..] :: w in words;
      NoHash(words[1..]);
      forall c <- Spaced(words) ensures c != '#' {
        assert c in words[0] || c == ' ' || c in Spaced(words[1..]) + "\n";
      }
    } else if |words| == 1 {
      assert words[0] in words;
    }
  }

  lemma {:induction false} Uncommenting(text: string, comment: string)
    requires '#' !in text
    ensures Uncommented(text) == text && Uncommented(text + (['#'] + comment)) == text
  {
    var line := text + (['#'] + comment);
    if text != "" {
      assert text[0] in text && line[1..] == text[1..] + (['#'] + comment);
      assert forall c <- text[1..] :: c in text;
      Uncommenting(text[1..], comment);
      assert [text[0]] + text[1..] == text;
    }
  }
}
