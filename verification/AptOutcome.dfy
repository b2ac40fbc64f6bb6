/** What a repair of the APT sources leaves, said of the files' own words. */
module AptOutcome {
  import opened Wrappers
  import opened PyText
  import opened AptText
  import opened AptStanzas
  import opened AptSources
  import opened AptRepair
  import opened AptPrinted

  // -------------------------------------------------------------------- what goes

  /** A suite of an official archive that is not one of the release's. */
  predicate Outdated(uri: string, suite: string, r: Release) {
    if r.base(uri) then
      suite !in {r.codename, r.codename + "-updates", r.codename + "-backports", r.codename + "-proposed-updates"}
    else r.security(uri) && suite != r.codename + "-security"
  }

  /** An active stanza with a CD-ROM, or with an outdated suite, among its own. */
  ghost predicate Unwanted(m: map<string, seq<string>>, r: Release) {
    && Active(m)
    && exists u <- At(m, "uris") ::
         StartsWith(Lower(u), "cdrom:") || exists s <- At(m, "suites") :: Outdated(u, s, r)
  }

  /** A line with a CD-ROM anywhere before a comment, or with an outdated source. */
  ghost predicate UnwantedLine(line: string, path: string, r: Release) {
    || (!IsBlank(line) && !IsComment(line)
        && exists t <- Words(Uncommented(LStrip(line))) :: StartsWith(Lower(t), "cdrom:"))
    || (ParseLine(line, path).Some?
        && Outdated(ParseLine(line, path).value.uri, ParseLine(line, path).value.suite, r))
  }

  ghost function Wanted(stanzas: seq<seq<string>>, r: Release): seq<seq<string>> {
    if stanzas == [] then []
    else (if Unwanted(FieldsOf(stanzas[0]).values, r) then [] else [stanzas[0]]) + Wanted(stanzas[1..], r)
  }

  ghost function WantedLines(lines: seq<string>, path: string, r: Release): seq<string> {
    if lines == [] then []
    else (if UnwantedLine(lines[0], path, r) then [] else [lines[0]]) + WantedLines(lines[1..], path, r)
  }

  // -------------------------------------------------------------------- one stanza

  lemma {:induction false} ProductMembers(
    path: string, uris: seq<string>, suites: seq<string>, components: seq<string>, e: Entry)
    ensures e in Product(path, uris, suites, components) <==>
            e.path == path && e.uri in uris && e.suite in suites && e.components == components
  {
    if uris != [] {
      RowMembers(path, uris[0], suites, components, e);
      ProductMembers(path, uris[1..], suites, components, e);
      assert e.uri in uris <==> e.uri == uris[0] || e.uri in uris[1..];
    }
  }

  lemma {:induction false} RowMembers(
    path: string, uri: string, suites: seq<string>, components: seq<string>, e: Entry)
    ensures e in WithUri(path, uri, suites, components) <==>
            e == Entry(path, uri, e.suite, components) && e.suite in suites
  {
    if suites != [] {
      RowMembers(path, uri, suites[1..], components, e);
      assert e.suite in suites <==> e.suite == suites[0] || e.suite in suites[1..];
    }
  }

  lemma StaleMeans(e: Entry, r: Release)
    ensures IsStale(e, r) <==> Outdated(e.uri, e.suite, r)
  {
  }

  /** What marks a stanza in one pass or the other is that it is unwanted. */
  lemma MarkedExactlyWhen(m: map<string, seq<string>>, path: string, r: Release)
    requires EntriesOf(m, path).Some?
    ensures CdromFields(m) || StaleFields(path, r)(m) <==> Unwanted(m, r)
  {
    hide Lower, Product, IsStale, Outdated, StartsWith;
    var uris, suites, components := At(m, "uris"), At(m, "suites"), At(m, "components");
    forall e ensures e in Product(path, uris, suites, components) <==>
        e.path == path && e.uri in uris && e.suite in suites && e.components == components {
      ProductMembers(path, uris, suites, components, e);
    }
    forall u, s ensures IsStale(Entry(path, u, s, components), r) <==> Outdated(u, s, r) {
      StaleMeans(Entry(path, u, s, components), r);
    }
    if Active(m) {
      assert EntriesOf(m, path) == Some(Product(path, uris, suites, components));
      if u, s :| u in uris && s in suites && Outdated(u, s, r) {
        assert Entry(path, u, s, components) in Product(path, uris, suites, components);
      }
    } else {
      assert EntriesOf(m, path) == Some([]);
    }
  }

  // ------------------------------------------------------------------ two passes as one

  /** Filtering what the first pass has left is filtering what it has kept. */
  lemma {:induction false} KeptReread(
    stanzas: seq<seq<string>>, which: seq<string> -> bool, marked: Mark, path: string)
    requires (forall s <- stanzas :: IsStanza(s)) && !marked(map[])
    ensures StanzaEntries(KeptStanzas(RereadAll(stanzas, which), Marks(marked)), path)
         == StanzaEntries(KeptStanzas(KeptStanzas(stanzas, which), Marks(marked)), path)
  {
    hide IsStanza, ParseStanza, CommentLines, Reread, FieldsOf;
    if stanzas != [] {
      var s, rest := stanzas[0], stanzas[1..];
      assert s in stanzas && forall t <- rest :: t in stanzas;
      KeptReread(rest, which, marked, path);
      OutcomeIsStanza(s, which, path);
      StanzaNotEmpty(Outcome(s, which));
      RereadOne(Outcome(s, which), path);
      var head, tail := Reread(Outcome(s, which)), RereadAll(rest, which);
      assert RereadAll(stanzas, which) == [head] + tail;
      KeptCons(head, tail, Marks(marked), path);
      if which(s) {
        CommentedStanza(s, path);
        CombineNothing(StanzaEntries(KeptStanzas(tail, Marks(marked)), path));
        assert KeptStanzas(stanzas, which) == KeptStanzas(rest, which);
      } else {
        assert KeptStanzas(stanzas, which) == [s] + KeptStanzas(rest, which);
        KeptCons(s, KeptStanzas(rest, which), Marks(marked), path);
      }
    }
  }

  lemma KeptCons(s: seq<string>, rest: seq<seq<string>>, which: seq<string> -> bool, path: string)
    ensures StanzaEntries(KeptStanzas([s] + rest, which), path)
         == if which(s) then StanzaEntries(KeptStanzas(rest, which), path)
            else Combine(ParseStanza(s, path), StanzaEntries(KeptStanzas(rest, which), path))
  {
    hide ParseStanza;
    var kept := KeptStanzas(rest, which);
    assert ([s] + rest)[1..] == rest && ([s] + rest)[0] == s;
    if which(s) { assert [] + kept == kept; } else { assert ([s] + kept)[1..] == kept; }
  }

  lemma {:induction false} KeptAreWanted(stanzas: seq<seq<string>>, path: string, r: Release)
    requires StanzaEntries(stanzas, path).Some?
    ensures KeptStanzas(KeptStanzas(stanzas, Marks(CdromFields)), Marks(StaleFields(path, r))) == Wanted(stanzas, r)
  {
    hide FieldsOf, CdromFields, StaleFields, Unwanted, EntriesOf;
    if stanzas != [] {
      var s, rest := stanzas[0], stanzas[1..];
      MarkedExactlyWhen(FieldsOf(s).values, path, r);
      KeptAreWanted(rest, path, r);
      var c, st := Marks(CdromFields), Marks(StaleFields(path, r));
      if c(s) {
        assert KeptStanzas(stanzas, c) == KeptStanzas(rest, c);
      } else {
        assert KeptStanzas(stanzas, c) == [s] + KeptStanzas(rest, c);
        assert ([s] + KeptStanzas(rest, c))[1..] == KeptStanzas(rest, c);
      }
    }
  }

  lemma StanzasLeft(f: Source, r: Release)
    requires f.deb822 && FileEntries(f).Some?
    ensures FileEntries(Repaired(f, r)) == StanzaEntries(Wanted(StanzasOf(f), r), f.path)
  {
    hide StanzasFrom, StanzaEntries, KeptStanzas, FieldsOf, SplitLines, Rewritten, CdromFields, StaleFields, IsStanza,
      RereadAll, NamesCdrom, StaleLine;
    var g, marked := NoCdroms(f), StaleFields(f.path, r);
    KindsAreFair(f.path, r);
    DisableKeepsPath(f, NamesCdrom, CdromFields);
    DisableParses(g, StaleLine(f.path, r), marked);
    KeptAreWanted(StanzasOf(f), f.path, r);
    if exists s <- StanzasOf(f) :: CdromFields(FieldsOf(s).values) {
      RewrittenText(f.content, Marks(CdromFields));
      KeptReread(StanzasOf(f), Marks(CdromFields), marked, f.path);
    } else {
      NothingKept(StanzasOf(f), Marks(CdromFields));
    }
  }

  lemma LineMarkedExactlyWhen(line: string, path: string, r: Release)
    ensures NamesCdrom(line) || StaleLine(path, r)(line) <==> UnwantedLine(line, path, r)
  {
    hide ParseLine, Words, Uncommented, LStrip, Lower, StartsWith, IsStale, Outdated;
    var p, tokens := ParseLine(line, path), Words(Uncommented(LStrip(line)));
    assert Tokens(LStrip(line)) == tokens;
    assert (exists t <- tokens :: StartsWith(Lower(t), "cdrom:")) <==> exists t <- tokens :: IsCdrom(t);
    assert StaleLine(path, r)(line) <==> p.Some? && IsStale(p.value, r);
    if p.Some? { StaleMeans(p.value, r); }
  }

  lemma {:induction false} LinesWanted(lines: seq<string>, path: string, r: Release)
    ensures LineEntries(KeptLines(DisableLines(lines, NamesCdrom), StaleLine(path, r)), path)
         == LineEntries(WantedLines(lines, path, r), path)
  {
    hide ParseLine, NamesCdrom, StaleLine, UnwantedLine, IsComment;
    if lines != [] {
      var l, rest := lines[0], lines[1..];
      LinesWanted(rest, path, r);
      LineMarkedExactlyWhen(l, path, r);
      DisabledIsComment(l);
      CommentHasNoEntry(DISABLED + l, path);
      CommentNotStale(DISABLED + l, path, r);
      var head, tail := if NamesCdrom(l) then DISABLED + l else l, DisableLines(rest, NamesCdrom);
      assert DisableLines(lines, NamesCdrom) == [head] + tail;
      KeptLineCons(head, tail, StaleLine(path, r), path);
      var w := WantedLines(rest, path, r);
      if UnwantedLine(l, path, r) {
        assert WantedLines(lines, path, r) == w;
        assert [] + LineEntries(w, path) == LineEntries(w, path);
      } else {
        assert WantedLines(lines, path, r) == [l] + w;
        assert ([l] + w)[1..] == w;
      }
    }
  }

  lemma CommentNotStale(line: string, path: string, r: Release)
    requires ParseLine(line, path).None?
    ensures !StaleLine(path, r)(line)
  {
    hide ParseLine;
  }

  lemma KeptLineCons(l: string, rest: seq<string>, which: string -> bool, path: string)
    ensures LineEntries(KeptLines([l] + rest, which), path)
         == (if which(l) then [] else Listed(ParseLine(l, path))) + LineEntries(KeptLines(rest, which), path)
  {
    hide ParseLine;
    var kept := KeptLines(rest, which);
    assert ([l] + rest)[1..] == rest && ([l] + rest)[0] == l;
    if which(l) { assert [] + kept == kept; } else { assert ([l] + kept)[1..] == kept; }
  }

  lemma LinesLeft(f: Source, r: Release)
    requires !f.deb822
    ensures FileEntries(Repaired(f, r)) == Some(LineEntries(WantedLines(SplitLines(f.content), f.path, r), f.path))
  {
    hide SplitLines, LineEntries, KeptLines, DisableLines, NamesCdrom, StaleLine, WantedLines, StaleFields, CdromFields,
      IsLine, IsComplete;
    var g, lines := NoCdroms(f), SplitLines(f.content);
    DisableParses(g, StaleLine(f.path, r), StaleFields(f.path, r));
    DisabledAreLines(lines, NamesCdrom);
    SplitJoined(DisableLines(lines, NamesCdrom));
    LinesWanted(lines, f.path, r);
  }

  /**
   A repair takes from a file exactly what is unwanted: of the stanzas those that are active and
   name a CD-ROM or an outdated suite, of the lines those that name a CD-ROM or are an outdated
   source. All else gives the entries that it gave.
   */
  lemma RepairLeavesTheRest(f: Source, r: Release)
    requires FileEntries(f).Some?
    ensures FileEntries(Repaired(f, r))
         == if f.deb822 then StanzaEntries(Wanted(StanzasOf(f), r), f.path)
            else Some(LineEntries(WantedLines(SplitLines(f.content), f.path, r), f.path))
  {
    hide *;
    if f.deb822 { StanzasLeft(f, r); } else { LinesLeft(f, r); }
  }

  ghost predicate NothingUnwanted(f: Source, r: Release) {
    if f.deb822 then forall s <- StanzasOf(f) :: !Unwanted(FieldsOf(s).values, r)
    else forall l <- SplitLines(f.content) :: !UnwantedLine(l, f.path, r)
  }

  /** And it leaves the text alone exactly when nothing in it is unwanted. */
  lemma RepairFixesExactlyWhen(f: Source, r: Release)
    requires FileEntries(f).Some?
    ensures Repaired(f, r) == f <==> NothingUnwanted(f, r)
  {
    hide StanzasFrom, FieldsOf, SplitLines, UnwantedLine, Unwanted, CdromFields, StaleFields, NamesCdrom, StaleLine,
      NoCdroms, NoStale, EntriesOf, LineEntries;
    RepairedIsRepaired(f, r);
    if f.deb822 {
      forall s <- StanzasOf(f)
        ensures CdromFields(FieldsOf(s).values) || StaleFields(f.path, r)(FieldsOf(s).values)
                <==> Unwanted(FieldsOf(s).values, r)
      {
        EachParses(StanzasOf(f), f.path, s);
        MarkedExactlyWhen(FieldsOf(s).values, f.path, r);
      }
    } else {
      forall l <- SplitLines(f.content)
        ensures NamesCdrom(l) || StaleLine(f.path, r)(l) <==> UnwantedLine(l, f.path, r)
      {
        LineMarkedExactlyWhen(l, f.path, r);
      }
    }
  }

  lemma {:induction false} EachParses(stanzas: seq<seq<string>>, path: string, s: seq<string>)
    requires StanzaEntries(stanzas, path).Some? && s in stanzas
    ensures EntriesOf(FieldsOf(s).values, path).Some?
  {
    hide FieldsOf, EntriesOf;
    if s != stanzas[0] { EachParses(stanzas[1..], path, s); }
  }

  // -------------------------------------------------------------------- whole runs

  /** Some entry of an official archive is for the suite, and names main. */
  ghost predicate Provided(entries: seq<Entry>, official: string -> bool, suite: string) {
    exists e <- entries :: official(e.uri) && e.suite == suite && exists c <- e.components :: Lower(c) == "main"
  }

  lemma ProvidedMeans(entries: seq<Entry>, r: Release)
    ensures HasBase(entries, r) <==> Provided(entries, r.base, r.codename)
    ensures HasSecurity(entries, r) <==> Provided(entries, r.security, r.codename + "-security")
  {
    hide Lower;
    assert forall e: Entry :: HasMain(e.components) <==> exists c <- e.components :: Lower(c) == "main";
  }

  lemma {:induction false} EntriesFine(files: seq<Source>, r: Release)
    requires AllRepaired(files, r) && Entries(files).Some?
    ensures forall e <- Entries(files).value :: !StartsWith(Lower(e.uri), "cdrom:") && !Outdated(e.uri, e.suite, r)
  {
    hide IsRepaired, FileEntries, IsStale, Outdated, StartsWith, Lower;
    if files != [] {
      assert files[0] in files && forall f <- files[1..] :: f in files;
      RepairedEntries(files[0], r);
      forall e <- FileEntries(files[0]).value ensures !Outdated(e.uri, e.suite, r) { StaleMeans(e, r); }
      EntriesFine(files[1..], r);
    }
  }

  /**
   A run that succeeds has left both archives of the release, with main, in the files, and neither
   a CD-ROM nor an outdated suite; beside the managed file it has only repaired files.
   */
  lemma SuccessMeans(d: Dir, r: Release, keyring: string)
    requires Ready(d, r, keyring) && Ensure(d, r, Some(keyring)).1.Ok?
    ensures var t := Ensure(d, r, Some(keyring));
            && Entries(t.0.All()) == Some(t.1.value)
            && Provided(t.1.value, r.base, r.codename) && Provided(t.1.value, r.security, r.codename + "-security")
            && (forall e <- t.1.value :: !StartsWith(Lower(e.uri), "cdrom:") && !Outdated(e.uri, e.suite, r))
            && t.0.before == RepairAll(d.before, r) && t.0.after == RepairAll(d.after, r)
  {
    hide AllRepaired, Entries, HasBase, HasSecurity, ManagedOf, HasMain, Ours, Complete, RepairAll, ComponentsFor,
      Ensure, GoodParts, ManagedText, Outdated, Lower, StartsWith, Provided, IsWord;
    Prepared(d, r, keyring);
    var d1, components := RepairDir(d, r), ComponentsFor(Entries(d.All()).value, r);
    CompleteCases(d1, components, r, keyring);
    OkProvides(d1, components, r, keyring);
    var t := Ensure(d, r, Some(keyring));
    ProvidedMeans(t.1.value, r);
    EntriesFine(t.0.All(), r);
  }

  lemma {:induction false} AllFixed(files: seq<Source>, r: Release)
    requires Entries(files).Some? && forall f <- files :: NothingUnwanted(f, r)
    ensures AllRepaired(files, r)
  {
    hide NothingUnwanted, IsRepaired, FileEntries, Repaired;
    if files != [] {
      assert files[0] in files && forall f <- files[1..] :: f in files;
      RepairFixesExactlyWhen(files[0], r);
      RepairedIsRepaired(files[0], r);
      AllFixed(files[1..], r);
      assert forall f <- files :: f == files[0] || f in files[1..];
    }
  }

  /** A host whose files provide both archives and nothing unwanted is left as it is. */
  lemma HealthyIsKept(d: Dir, r: Release, keyring: string)
    requires Ready(d, r, keyring) && d.managed.None? && forall f <- d.All() :: NothingUnwanted(f, r)
    requires var e := Entries(d.All()).value;
             Provided(e, r.base, r.codename) && Provided(e, r.security, r.codename + "-security")
    ensures Ensure(d, r, Some(keyring)) == (d, Ok(Entries(d.All()).value))
  {
    hide AllRepaired, Entries, HasBase, HasSecurity, ManagedOf, HasMain, Complete, RepairDir, ComponentsFor, Ensure,
      GoodParts, ManagedText, Provided, IsWord, NothingUnwanted, Contains;
    AllFixed(d.All(), r);
    RepairDirRepairs(d, r);
    Prepared(d, r, keyring);
    CompleteCases(d, ComponentsFor(Entries(d.All()).value, r), r, keyring);
    Provides(d, r);
    ProvidedMeans(Entries(d.All()).value, r);
  }

  // --------------------------------------------------------------------- components

  /** A letter or digit, then letters, digits, `+`, `.` and `-`. */
  predicate WellFormed(w: string) {
    && w != "" && AlphaNumeric(w[0])
    && forall c <- w :: AlphaNumeric(c) || c in "+.-"
  }

  predicate AlphaNumeric(c: char) { 'A' <= c <= 'Z' || 'a' <= c <= 'z' || '0' <= c <= '9' }

  /** A component of an official archive, or of a CD-ROM. */
  ghost predicate Named(entries: seq<Entry>, r: Release, w: string) {
    exists e <- entries ::
      (r.base(e.uri) || r.security(e.uri) || StartsWith(Lower(e.uri), "cdrom:")) && w in e.components
  }

  lemma {:induction false} RelevantAreNamed(entries: seq<Entry>, r: Release, w: string)
    ensures w in RelevantComponents(entries, r) <==> Named(entries, r, w)
  {
    hide Lower, StartsWith;
    if entries != [] {
      RelevantAreNamed(entries[1..], r, w);
      assert forall e :: e in entries <==> e == entries[0] || e in entries[1..];
    }
  }

  /** No two are the same up to case. */
  ghost predicate NoneTwice(c: seq<string>) {
    forall i, j | 0 <= i < j < |c| :: Lower(c[i]) != Lower(c[j])
  }

  lemma NoneTwiceSnoc(c: seq<string>, w: string)
    requires NoneTwice(c) && Lower(w) !in LowerAll(c)
    ensures NoneTwice(c + [w]) && NoneTwice([w] + c)
  {
    hide Lower;
    forall i | 0 <= i < |c| ensures Lower(c[i]) != Lower(w) { assert c[i] in c; }
  }

  lemma {:induction false} DistinctMembers(words: seq<string>, n: nat, w: string)
    requires n <= |words|
    ensures w in Distinct(words, n) ==> w in words[..n] && IsComponent(w)
    ensures w in words[..n] && IsComponent(w) ==> Lower(w) in LowerAll(Distinct(words, n))
    ensures NoneTwice(Distinct(words, n))
  {
    hide IsComponent, Lower, NoneTwice, LowerAll;
    if n == 0 {
      assert NoneTwice([]) by { NoneTwiceNone(); }
    } else {
      var before, x := Distinct(words, n - 1), words[n - 1];
      DistinctMembers(words, n - 1, w);
      assert words[..n] == words[..n - 1] + [x];
      OneMoreLower(before, x);
      if IsComponent(x) && Lower(x) !in LowerAll(before) { NoneTwiceSnoc(before, x); }
    }
  }

  lemma NoneTwiceNone()
    ensures NoneTwice([])
  {
  }

  lemma ComponentMeans(w: string)
    ensures IsComponent(w) <==> WellFormed(w)
  {
  }

  /**
   The components asked for: main, and the well-formed ones of the official archives and CD-ROMs;
   all of these, up to case, and none twice.
   */
  lemma ComponentsExactly(entries: seq<Entry>, r: Release, w: string)
    ensures var c := ComponentsFor(entries, r);
            && (w in c ==> w == "main" || (WellFormed(w) && Named(entries, r, w)))
            && (WellFormed(w) && Named(entries, r, w) ==> exists v <- c :: Lower(v) == Lower(w))
            && (exists v <- c :: Lower(v) == "main")
            && (forall i, j | 0 <= i < j < |c| :: Lower(c[i]) != Lower(c[j]))
  {
    hide IsComponent, WellFormed, Lower, Distinct, RelevantComponents, Named;
    var words := RelevantComponents(entries, r);
    var d, c := Distinct(words, |words|), ComponentsFor(entries, r);
    DistinctMembers(words, |words|, w);
    assert words[..|words|] == words;
    RelevantAreNamed(entries, r, w);
    ComponentMeans(w);
    MainIsMain();
    if "main" !in LowerAll(d) {
      assert c == ["main"] + d;
      NoneTwiceSnoc(d, "main");
      assert "main" in c;
    }
  }
}
