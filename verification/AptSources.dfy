/**
 Repair of a Debian system's APT sources: CD-ROM and stale official sources are
 disabled in every file, and what is then missing comes from a managed file.
 */
module AptSources {
  import opened Wrappers
  import opened PyText
  import opened AptText
  import opened AptStanzas

  const BASE_MIRROR: string := ("https://" + "deb.debian.org") + "/debian"
  const SECURITY_MIRROR: string := (("https://" + "security.") + "debian.org") + "/debian-security"
  const MARKER := "# Managed by infra_tools"
  const MANAGED_PATH := "/etc/apt/sources.list.d/infra_tools-debian.sources"

  datatype Source = Source(path: string, deb822: bool, content: string)

  /** The release, and which URIs are its official base and security archives. */
  datatype Release = Release(codename: string, base: string -> bool, security: string -> bool)
  {
    ghost predicate Valid() {
      && IsWord(codename) && base(BASE_MIRROR) && security(SECURITY_MIRROR) && !base(SECURITY_MIRROR)
    }
  }

  predicate IsStale(e: Entry, r: Release) {
    if r.base(e.uri) then
      e.suite != r.codename && e.suite != r.codename + "-backports" && e.suite != r.codename + "-proposed-updates"
      && e.suite != r.codename + "-updates"
    else r.security(e.uri) && e.suite != r.codename + "-security"
  }

  predicate HasMain(components: seq<string>) { exists c <- components :: Lower(c) == "main" }

  predicate IsBase(e: Entry, r: Release) { r.base(e.uri) && e.suite == r.codename && HasMain(e.components) }

  predicate IsSecurity(e: Entry, r: Release) {
    r.security(e.uri) && e.suite == r.codename + "-security" && HasMain(e.components)
  }

  function FileEntries(f: Source): Option<seq<Entry>> {
    if f.deb822 then StanzaEntries(StanzasFrom(SplitLines(f.content), []), f.path)
    else Some(LineEntries(SplitLines(f.content), f.path))
  }

  // ------------------------------------------------------------------- disabling

  type Mark = map<string, seq<string>> -> bool

  function Marks(marked: Mark): seq<string> -> bool { s => marked(FieldsOf(s).values) }

  function StanzasOf(f: Source): seq<seq<string>> { StanzasFrom(SplitLines(f.content), []) }

  /** A file is only written when something in it is disabled. */
  function DisableIn(f: Source, line: string -> bool, marked: Mark): Source {
    if f.deb822 then
      if exists s <- StanzasOf(f) ::
        marked(FieldsOf(s).values) then f.(content := Rewritten(StanzasOf(f), Marks(marked))) else f
    else f.(content := Join(DisableLines(SplitLines(f.content), line)))
  }

  /** Nothing in the file is to be disabled. */
  predicate Clean(f: Source, line: string -> bool, marked: Mark) {
    if f.deb822 then forall s <- StanzasOf(f) :: !marked(FieldsOf(s).values)
    else forall l <- SplitLines(f.content) :: !line(l)
  }

  function KeptEntries(f: Source, line: string -> bool, marked: Mark): Option<seq<Entry>> {
    if f.deb822 then StanzaEntries(KeptStanzas(StanzasOf(f), Marks(marked)), f.path)
    else Some(LineEntries(KeptLines(SplitLines(f.content), line), f.path))
  }

  lemma {:induction false} NothingKept(stanzas: seq<seq<string>>, which: seq<string> -> bool)
    requires forall s <- stanzas :: !which(s)
    ensures KeptStanzas(stanzas, which) == stanzas
  {
    if stanzas != [] {
      assert stanzas[0] in stanzas && forall s <- stanzas[1..] :: s in stanzas;
      NothingKept(stanzas[1..], which);
      assert [stanzas[0]] + stanzas[1..] == stanzas;
    }
  }

  /** The rewrite commutes with parsing, in both formats. */
  lemma DisableParses(f: Source, line: string -> bool, marked: Mark)
    ensures FileEntries(DisableIn(f, line, marked)) == KeptEntries(f, line, marked)
  {
    hide StanzasFrom, StanzaEntries, LineEntries, DisableLines, KeptLines, KeptStanzas, FieldsOf, SplitLines,
      Rewritten;
    if f.deb822 {
      if exists s <- StanzasOf(f) :: marked(FieldsOf(s).values) {
        RewrittenTextParses(f.content, Marks(marked), f.path);
      } else {
        NothingKept(StanzasOf(f), Marks(marked));
      }
    } else {
      DisabledTextParses(f.content, line, f.path);
    }
  }

  /** Marks that comments and empty stanzas do not carry. */
  ghost predicate Fair(line: string -> bool, marked: Mark) {
    !marked(map[]) && forall l | IsComment(l) :: !line(l)
  }

  lemma DisabledLinesLack(lines: seq<string>, which: string -> bool, line: string -> bool)
    requires AreLines(lines) && (forall l | IsComment(l) :: !line(l))
    requires forall l <- lines | !which(l) :: !line(l)
    ensures forall l <- SplitLines(Join(DisableLines(lines, which))) :: !line(l)
  {
    hide IsComment, IsLine, IsComplete;
    DisabledAreLines(lines, which);
    SplitJoined(DisableLines(lines, which));
    var r := DisableLines(lines, which);
    forall i | 0 <= i < |r|
      ensures !line(r[i])
    {
      assert lines[i] in lines;
      DisabledIsComment(lines[i]);
    }
  }

  lemma RewrittenLacks(f: Source, which: Mark, marked: Mark)
    requires f.deb822 && !marked(map[]) && (exists s <- StanzasOf(f) :: which(FieldsOf(s).values))
    requires forall s <- StanzasOf(f) | !which(FieldsOf(s).values) :: !marked(FieldsOf(s).values)
    ensures forall s <- StanzasFrom(SplitLines(Rewritten(StanzasOf(f), Marks(which))), []) ::
            !marked(FieldsOf(s).values)
  {
    hide StanzasFrom, FieldsOf, SplitLines, Rewritten, IsStanza;
    RewrittenText(f.content, Marks(which));
    RereadLacks(StanzasOf(f), Marks(which), marked);
  }

  /** After disabling, nothing of the kind is left; and nothing of another kind comes back. */
  lemma DisabledIsClean(f: Source, line: string -> bool, marked: Mark, line2: string -> bool, marked2: Mark)
    requires Fair(line, marked) && Fair(line2, marked2)
    ensures Clean(DisableIn(f, line, marked), line, marked)
    ensures Clean(f, line2, marked2) ==> Clean(DisableIn(f, line, marked), line2, marked2)
  {
    hide StanzasFrom, FieldsOf, SplitLines, Rewritten, IsComment, Marks, DisableLines;
    if f.deb822 {
      if exists s <- StanzasOf(f) :: marked(FieldsOf(s).values) {
        RewrittenLacks(f, marked, marked);
        if Clean(f, line2, marked2) { RewrittenLacks(f, marked, marked2); }
      }
    } else {
      var lines := SplitLines(f.content);
      DisabledLinesLack(lines, line, line);
      if Clean(f, line2, marked2) { DisabledLinesLack(lines, line, line2); }
    }
  }

  lemma {:induction false} DisableNone(lines: seq<string>, line: string -> bool)
    requires forall l <- lines :: !line(l)
    ensures DisableLines(lines, line) == lines
  {
    if lines != [] {
      assert lines[0] in lines && forall l <- lines[1..] :: l in lines;
      DisableNone(lines[1..], line);
      assert [lines[0]] + lines[1..] == lines;
    }
  }

  /** A clean file is left alone. */
  lemma DisableFixesClean(f: Source, line: string -> bool, marked: Mark)
    requires Clean(f, line, marked)
    ensures DisableIn(f, line, marked) == f
  {
    hide StanzasFrom, FieldsOf, Rewritten, DisableLines;
    if !f.deb822 { DisableNone(SplitLines(f.content), line); }
  }

  // --------------------------------------------------------- the two kinds of it

  /** Switched on, of type deb, and with a CD-ROM among its URIs. */
  predicate CdromFields(f: map<string, seq<string>>) {
    && !("enabled" in f && f["enabled"] != [] && Lower(f["enabled"][0]) == "no")
    && HasType(Get(f, "types")) && exists u <- Get(f, "uris") :: IsCdrom(u)
  }

  function StaleFields(path: string, r: Release): Mark {
    f => EntriesOf(f, path).Some? && exists e <- EntriesOf(f, path).value :: IsStale(e, r)
  }

  function StaleLine(path: string, r: Release): string -> bool {
    l => ParseLine(l, path).Some? && IsStale(ParseLine(l, path).value, r)
  }

  function NoCdroms(f: Source): Source { DisableIn(f, NamesCdrom, CdromFields) }

  function NoStale(f: Source, r: Release): Source { DisableIn(f, StaleLine(f.path, r), StaleFields(f.path, r)) }

  lemma KindsAreFair(path: string, r: Release)
    ensures Fair(NamesCdrom, CdromFields) && Fair(StaleLine(path, r), StaleFields(path, r))
  {
    hide ParseLine, IsComment, Tokens, IsStale;
    assert EntriesOf(map[], path) == Some([]);
    forall l | IsComment(l) ensures !StaleLine(path, r)(l) { CommentHasNoEntry(l, path); }
  }

  /** Both passes over one file. */
  function Repaired(f: Source, r: Release): Source { NoStale(NoCdroms(f), r) }

  predicate IsRepaired(f: Source, r: Release) {
    Clean(f, NamesCdrom, CdromFields) && Clean(f, StaleLine(f.path, r), StaleFields(f.path, r))
  }

  lemma DisableKeepsPath(f: Source, line: string -> bool, marked: Mark)
    ensures DisableIn(f, line, marked).path == f.path && DisableIn(f, line, marked).deb822 == f.deb822
  {
    hide StanzasFrom, FieldsOf, Rewritten, DisableLines, SplitLines;
  }

  lemma RepairedIsRepaired(f: Source, r: Release)
    ensures IsRepaired(Repaired(f, r), r)
    ensures Repaired(f, r).path == f.path && Repaired(f, r).deb822 == f.deb822
    ensures IsRepaired(f, r) ==> Repaired(f, r) == f
  {
    hide Clean, DisableIn, Fair, StaleLine, StaleFields, CdromFields, NamesCdrom;
    KindsAreFair(f.path, r);
    var g := NoCdroms(f);
    DisableKeepsPath(f, NamesCdrom, CdromFields);
    DisableKeepsPath(g, StaleLine(f.path, r), StaleFields(f.path, r));
    DisabledIsClean(f, NamesCdrom, CdromFields, NamesCdrom, CdromFields);
    DisabledIsClean(g, StaleLine(f.path, r), StaleFields(f.path, r), NamesCdrom, CdromFields);
    if IsRepaired(f, r) {
      DisableFixesClean(f, NamesCdrom, CdromFields);
      DisableFixesClean(f, StaleLine(f.path, r), StaleFields(f.path, r));
    }
  }

  // ------------------------------------------------------- entries of clean files

  lemma UriIsToken(l: string, path: string)
    requires ParseLine(l, path).Some?
    ensures ParseLine(l, path).value.uri in Tokens(LStrip(l)) && !IsComment(l) && !IsBlank(l)
  {
    hide Words, Uncommented, UriIndex;
    if IsComment(l) { CommentHasNoEntry(l, path); }
    if IsBlank(l) { BlankStrips(l); }
  }

  lemma {:induction false} BlankStrips(s: string)
    requires IsBlank(s)
    ensures LStrip(s) == ""
  {
    if s != "" {
      assert s[0] in s && forall c <- s[1..] :: c in s;
      BlankStrips(s[1..]);
    }
  }

  lemma {:induction false} LinesClean(lines: seq<string>, path: string, r: Release)
    requires forall l <- lines :: !NamesCdrom(l) && !StaleLine(path, r)(l)
    ensures forall e <- LineEntries(lines, path) :: !IsCdrom(e.uri) && !IsStale(e, r)
  {
    hide ParseLine, NamesCdrom, IsStale, IsCdrom, StaleLine;
    if lines != [] {
      assert lines[0] in lines && forall l <- lines[1..] :: l in lines;
      LinesClean(lines[1..], path, r);
      if ParseLine(lines[0], path).Some? {
        OneLineClean(lines[0], path, r);
      }
    }
  }

  lemma OneLineClean(l: string, path: string, r: Release)
    requires ParseLine(l, path).Some? && !NamesCdrom(l) && !StaleLine(path, r)(l)
    ensures var e := ParseLine(l, path).value; !IsCdrom(e.uri) && !IsStale(e, r)
  {
    hide ParseLine, Tokens, IsComment, IsBlank, IsStale, IsCdrom;
    UriIsToken(l, path);
  }

  lemma {:induction false} ProductUris(path: string, uris: seq<string>, suites: seq<string>, components: seq<string>)
    ensures forall e <- Product(path, uris, suites, components) :: e.uri in uris
  {
    if uris != [] {
      UriOf(path, uris[0], suites, components);
      ProductUris(path, uris[1..], suites, components);
    }
  }

  lemma {:induction false} UriOf(path: string, uri: string, suites: seq<string>, components: seq<string>)
    ensures forall e <- WithUri(path, uri, suites, components) :: e.uri == uri
  {
    if suites != [] { UriOf(path, uri, suites[1..], components); }
  }

  lemma FieldsClean(f: map<string, seq<string>>, path: string, r: Release)
    requires !CdromFields(f) && !StaleFields(path, r)(f) && EntriesOf(f, path).Some?
    ensures forall e <- EntriesOf(f, path).value :: !IsCdrom(e.uri) && !IsStale(e, r)
  {
    hide IsStale, IsCdrom, HasType;
    ProductUris(path, Get(f, "uris"), Get(f, "suites"), Get(f, "components"));
  }

  lemma {:induction false} StanzasClean(stanzas: seq<seq<string>>, path: string, r: Release)
    requires forall s <- stanzas :: !CdromFields(FieldsOf(s).values) && !StaleFields(path, r)(FieldsOf(s).values)
    requires StanzaEntries(stanzas, path).Some?
    ensures forall e <- StanzaEntries(stanzas, path).value :: !IsCdrom(e.uri) && !IsStale(e, r)
  {
    hide EntriesOf, CdromFields, IsStale, IsCdrom, FieldsOf, StaleFields;
    if stanzas != [] {
      assert stanzas[0] in stanzas && forall s <- stanzas[1..] :: s in stanzas;
      FieldsClean(FieldsOf(stanzas[0]).values, path, r);
      StanzasClean(stanzas[1..], path, r);
    }
  }

  /** A repaired file has no CD-ROM and no stale official entry. */
  lemma RepairedEntries(f: Source, r: Release)
    requires IsRepaired(f, r) && FileEntries(f).Some?
    ensures forall e <- FileEntries(f).value :: !IsCdrom(e.uri) && !IsStale(e, r)
  {
    hide EntriesOf, CdromFields, IsStale, IsCdrom, FieldsOf, StaleFields, StaleLine, NamesCdrom, StanzaEntries,
      LineEntries, StanzasFrom, SplitLines;
    if f.deb822 { StanzasClean(StanzasOf(f), f.path, r); } else { LinesClean(SplitLines(f.content), f.path, r); }
  }

  lemma {:induction false} KeptStillParse(stanzas: seq<seq<string>>, which: seq<string> -> bool, path: string)
    requires StanzaEntries(stanzas, path).Some?
    ensures StanzaEntries(KeptStanzas(stanzas, which), path).Some?
  {
    hide ParseStanza;
    if stanzas != [] {
      KeptStillParse(stanzas[1..], which, path);
      var kept := KeptStanzas(stanzas[1..], which);
      if which(stanzas[0]) { assert [] + kept == kept; } else { assert ([stanzas[0]] + kept)[1..] == kept; }
    }
  }

  /** Disabling brings no crash: what parsed before parses after. */
  lemma RepairedStillParse(f: Source, r: Release)
    requires FileEntries(f).Some?
    ensures FileEntries(Repaired(f, r)).Some?
  {
    hide DisableIn, StanzaEntries, KeptStanzas, LineEntries, StaleLine, StaleFields, CdromFields, NamesCdrom,
      StanzasFrom, SplitLines;
    var g := NoCdroms(f);
    DisableKeepsPath(f, NamesCdrom, CdromFields);
    DisableParses(f, NamesCdrom, CdromFields);
    DisableParses(g, StaleLine(f.path, r), StaleFields(f.path, r));
    if f.deb822 {
      KeptStillParse(StanzasOf(f), Marks(CdromFields), f.path);
      KeptStillParse(StanzasOf(g), Marks(StaleFields(f.path, r)), f.path);
    }
  }

  // ------------------------------------------------------------------ the directory

  /** Source files in reading order; the managed file, when there is one, between `before` and `after`. */
  datatype Dir = Dir(before: seq<Source>, managed: Option<string>, after: seq<Source>)
  {
    function ManagedSources(): seq<Source> {
      if managed.Some? then [Source(MANAGED_PATH, true, managed.value)] else []
    }

    function All(): seq<Source> { before + ManagedSources() + after }

    function Others(): seq<Source> { before + after }

    /** Only the managed file has the managed path. */
    ghost predicate Valid() { forall f <- Others() :: f.path != MANAGED_PATH }
  }

  function Entries(files: seq<Source>): Option<seq<Entry>> {
    if files == [] then Some([]) else Combine(FileEntries(files[0]), Entries(files[1..]))
  }

  function RepairAll(files: seq<Source>, r: Release): seq<Source> {
    if files == [] then [] else [Repaired(files[0], r)] + RepairAll(files[1..], r)
  }

  function RepairDir(d: Dir, r: Release): Dir {
    Dir(RepairAll(d.before, r),
        if d.managed.Some? then Some(Repaired(Source(MANAGED_PATH, true, d.managed.value), r).content) else None,
        RepairAll(d.after, r))
  }

  predicate HasBase(entries: seq<Entry>, r: Release) { exists e <- entries :: IsBase(e, r) }

  predicate HasSecurity(entries: seq<Entry>, r: Release) { exists e <- entries :: IsSecurity(e, r) }

  predicate Contains(s: string, part: string) {
    exists i | 0 <= i <= |s| :: part <= s[i..]
  }

  /** A text contains a part exactly when it stands somewhere between two others. */
  lemma ContainsExactlyWhen(s: string, part: string)
    ensures Contains(s, part) <==> exists a, b :: s == a + part + b
  {
    if Contains(s, part) {
      var i :| 0 <= i <= |s| && part <= s[i..];
      assert s == s[..i] + part + s[i + |part|..];
    }
    if a, b :| s == a + part + b {
      assert s[|a|..] == part + b && part <= s[|a|..];
    }
  }

  // ------------------------------------------------------------- the managed file

  /** `Name: words` */
  function FieldText(name: string, words: seq<string>): string {
    name + ([':'] + ([' '] + (Spaced(words) + "\n")))
  }

  /** One stanza of the managed file. */
  function ArchiveStanza(uri: string, suites: seq<string>, components: seq<string>, keyring: string): seq<string> {
    [FieldText("Types", ["deb"]), FieldText("URIs", [uri]), FieldText("Suites", suites),
     FieldText("Components", components), FieldText("Signed-By", [keyring])]
  }

  function BaseStanza(r: Release, components: seq<string>, keyring: string): seq<string> {
    ArchiveStanza(BASE_MIRROR, [r.codename, r.codename + "-updates"], components, keyring)
  }

  function SecurityStanza(r: Release, components: seq<string>, keyring: string): seq<string> {
    ArchiveStanza(SECURITY_MIRROR, [r.codename + "-security"], components, keyring)
  }

  function HeadText(): string {
    ". Do not edit; " + ("rerun infra_tools " + ("after a Debian " + "release change."))
  }

  function HeadLine(): string {
    (MARKER + HeadText()) + "\n"
  }

  /** The managed text: a head line and a stanza, behind an empty line, for each archive that is missing. */
  function ManagedLines(r: Release, components: seq<string>, keyring: string, base: bool, security: bool): seq<string> {
    [HeadLine()] + ((if base then ["\n"] + BaseStanza(r, components, keyring) else [])
                    + (if security then ["\n"] + SecurityStanza(r, components, keyring) else []))
  }

  function ManagedText(r: Release, components: seq<string>, keyring: string, base: bool, security: bool): string {
    Join(ManagedLines(r, components, keyring, base, security))
  }

  // Reading it back.

  lemma {:induction false} SplitAtColon(name: string, rest: string)
    requires ':' !in name
    ensures Before(name + ([':'] + rest)) == name && Behind(name + ([':'] + rest)) == rest
  {
    var s := name + ([':'] + rest);
    if name == "" {
      assert s[1..] == rest;
    } else {
      assert s[0] == name[0] && name[0] in name && s[1..] == name[1..] + ([':'] + rest);
      SplitAtColon(name[1..], rest);
      assert [name[0]] + name[1..] == name;
    }
  }

  lemma SpaceFirst(words: seq<string>)
    requires words != [] && forall w <- words :: IsWord(w)
    ensures Words([' '] + (Spaced(words) + "\n")) == words
  {
    WordsOfLine(words);
    assert ([' '] + (Spaced(words) + "\n"))[1..] == Spaced(words) + "\n";
  }

  predicate IsName(name: string, key: string) {
    IsWord(name) && ':' !in name && name[0] != '#' && Lower(name) == key
  }

  lemma FieldLine(f: Fields, name: string, key: string, words: seq<string>)
    requires f.key.Some? ==> f.key.value in f.values
    requires IsName(name, key) && words != [] && forall w <- words :: IsWord(w)
    ensures FieldStep(f, FieldText(name, words)) == Fields(f.values[key := words], Some(key))
  {
    hide Words, Spaced, Lower;
    var rest := [' '] + (Spaced(words) + "\n");
    var line := name + ([':'] + rest);
    SplitAtColon(name, rest);
    SpaceFirst(words);
    assert line[0] == name[0] && name[0] in name && name[0] in line;
    assert LStrip(line) == line && LStrip(name) == name;
    assert name[|name| - 1] in name && RStrip(name) == name;
    assert line[|name|] == ':';
  }

  lemma FieldsSnoc(s: seq<string>, l: string)
    ensures FieldsOf(s + [l]) == FieldStep(FieldsOf(s), l)
  {
    assert (s + [l])[..|s|] == s;
  }

  /** Visible characters other than the colon. */
  predicate Plain(s: string) { s != "" && forall c <- s :: '!' <= c <= '~' && c != ':' }

  predicate Visible(s: string) { s != "" && forall c <- s :: '!' <= c <= '~' }

  lemma PlainIsWord(s: string)
    requires Plain(s)
    ensures IsWord(s) && ':' !in s
  {
  }

  lemma VisibleIsWord(s: string)
    requires Visible(s)
    ensures IsWord(s)
  {
  }

  lemma PlainConcat(a: string, b: string)
    requires Plain(a) && Plain(b)
    ensures Plain(a + b)
  {
  }

  lemma VisibleConcat(a: string, b: string)
    requires Visible(a) && Visible(b)
    ensures Visible(a + b)
  {
  }

  lemma NameTypes()
    ensures IsWord("Types") && ':' !in "Types" && Lower("Types") == "types"
  {
    hide IsWord;
    assert Plain("Types");
    PlainIsWord("Types");
  }

  lemma NameUris()
    ensures IsWord("URIs") && ':' !in "URIs" && Lower("URIs") == "uris"
  {
    hide IsWord;
    assert Plain("URIs");
    PlainIsWord("URIs");
  }

  lemma NameSuites()
    ensures IsWord("Suites") && ':' !in "Suites" && Lower("Suites") == "suites"
  {
    hide IsWord;
    assert Plain("Suites");
    PlainIsWord("Suites");
  }

  lemma NameComponents()
    ensures IsWord("Components") && ':' !in "Components" && Lower("Components") == "components"
  {
    hide IsWord, Lower;
    var a, b := "Compo", "nents";
    PlainPieces();
    PlainConcat(a, b);
    PlainIsWord(a + b);
    LowerConcat(a, b);
    LowerOfComponents();
    assert "Components" == a + b;
  }

  lemma NameSignedBy()
    ensures IsWord("Signed-By") && ':' !in "Signed-By" && Lower("Signed-By") == "signed-by"
  {
    hide IsWord, Lower;
    var a, b := "Signe", "d-By";
    PlainPieces();
    PlainConcat(a, b);
    PlainIsWord(a + b);
    LowerConcat(a, b);
    LowerOfSignedBy();
    assert "Signed-By" == a + b;
  }

  lemma PlainPieces()
    ensures Plain("Compo") && Plain("nents") && Plain("Signe") && Plain("d-By")
  {
  }

  lemma LowerOfComponents()
    ensures Lower("Compo") == "compo" && Lower("nents") == "nents"
  {
  }

  lemma LowerOfSignedBy()
    ensures Lower("Signe") == "signe" && Lower("d-By") == "d-by"
  {
  }

  lemma {:induction false} LowerConcat(a: string, b: string)
    ensures Lower(a + b) == Lower(a) + Lower(b)
  {
    if a == "" {
      assert a + b == b;
    } else {
      assert (a + b)[1..] == a[1..] + b;
      LowerConcat(a[1..], b);
    }
  }

  lemma NamesAreNames()
    ensures IsName("Types", "types") && IsName("URIs", "uris") && IsName("Suites", "suites")
    ensures IsName("Components", "components") && IsName("Signed-By", "signed-by")
  {
    hide IsWord, Lower;
    NameTypes();
    NameUris();
    NameSuites();
    NameComponents();
    NameSignedBy();
  }

  lemma ArchiveFields(uri: string, suites: seq<string>, components: seq<string>, keyring: string)
    requires IsWord(uri) && IsWord(keyring) && suites != [] && components != []
    requires (forall w <- suites :: IsWord(w)) && forall w <- components :: IsWord(w)
    ensures FieldsOf(ArchiveStanza(uri, suites, components, keyring)).values
         == map["types" := ["deb"], "uris" := [uri], "suites" := suites, "components" := components,
                "signed-by" := [keyring]]
  {
    hide FieldStep, FieldText, IsName, FieldsOf;
    NamesAreNames();
    var a, b, c := FieldText("Types", ["deb"]), FieldText("URIs", [uri]), FieldText("Suites", suites);
    var d, e := FieldText("Components", components), FieldText("Signed-By", [keyring]);
    NoFields();
    FieldsSnoc([], a);
    FieldsSnoc([a], b);
    FieldsSnoc([a, b], c);
    FieldsSnoc([a, b, c], d);
    FieldsSnoc([a, b, c, d], e);
    assert [] + [a] == [a] && [a] + [b] == [a, b] && [a, b] + [c] == [a, b, c] && [a, b, c] + [d] == [a, b, c, d]
      && [a, b, c, d] + [e] == [a, b, c, d, e];
    FieldLine(FieldsOf([]), "Types", "types", ["deb"]);
    FieldLine(FieldsOf([a]), "URIs", "uris", [uri]);
    FieldLine(FieldsOf([a, b]), "Suites", "suites", suites);
    FieldLine(FieldsOf([a, b, c]), "Components", "components", components);
    FieldLine(FieldsOf([a, b, c, d]), "Signed-By", "signed-by", [keyring]);
  }

  lemma NoFields()
    ensures FieldsOf([]) == Fields(map[], None)
  {
  }

  lemma TwoSuites(path: string, uri: string, a: string, b: string, components: seq<string>)
    ensures Product(path, [uri], [a, b], components)
            == [Entry(path, uri, a, components), Entry(path, uri, b, components)]
  {
    assert [uri][1..] == [] && [a, b][1..] == [b] && [b][1..] == [];
    assert WithUri(path, uri, [b], components) == [Entry(path, uri, b, components)];
    assert WithUri(path, uri, [a, b], components) == [Entry(path, uri, a, components)]
      + WithUri(path, uri, [b], components);
  }

  lemma OneSuite(path: string, uri: string, a: string, components: seq<string>)
    ensures Product(path, [uri], [a], components) == [Entry(path, uri, a, components)]
  {
    assert [uri][1..] == [] && [a][1..] == [];
    assert WithUri(path, uri, [a], components) == [Entry(path, uri, a, components)];
  }

  function BaseEntries(r: Release, components: seq<string>): seq<Entry> {
    [Entry(MANAGED_PATH, BASE_MIRROR, r.codename, components),
     Entry(MANAGED_PATH, BASE_MIRROR, r.codename + "-updates", components)]
  }

  function SecurityEntries(r: Release, components: seq<string>): seq<Entry> {
    [Entry(MANAGED_PATH, SECURITY_MIRROR, r.codename + "-security", components)]
  }

  ghost predicate GoodParts(r: Release, components: seq<string>, keyring: string) {
    r.Valid() && IsWord(keyring) && components != [] && forall c <- components :: IsWord(c)
  }

  lemma SuffixedWord(w: string, suffix: string)
    requires IsWord(w) && forall c <- suffix :: !IsSpace(c)
    ensures IsWord(w + suffix)
  {
  }

  lemma VisiblePieces()
    ensures Visible("https://") && Visible("deb.debian.org") && Visible("/debian") && Visible("security.")
            && Visible("debian.org")
    ensures Visible("/debian-security") && Visible("deb")
  {
  }

  lemma MirrorsAreWords()
    ensures IsWord(BASE_MIRROR) && IsWord(SECURITY_MIRROR) && IsWord("deb")
  {
    hide Visible, IsWord;
    VisiblePieces();
    VisibleConcat("https://", "deb.debian.org");
    VisibleConcat("https://" + "deb.debian.org", "/debian");
    VisibleConcat("https://", "security.");
    VisibleConcat("https://" + "security.", "debian.org");
    VisibleConcat(("https://" + "security.") + "debian.org", "/debian-security");
    VisibleIsWord(BASE_MIRROR);
    VisibleIsWord(SECURITY_MIRROR);
    VisibleIsWord("deb");
  }

  lemma DebIsType()
    ensures HasType(["deb"])
  {
    assert "deb" in ["deb"] && Lower("deb") == "deb";
  }

  lemma ArchiveParse(uri: string, suites: seq<string>, components: seq<string>, keyring: string)
    requires IsWord(uri) && IsWord(keyring) && suites != [] && components != []
    requires (forall w <- suites :: IsWord(w)) && forall w <- components :: IsWord(w)
    ensures ParseStanza(ArchiveStanza(uri, suites, components, keyring), MANAGED_PATH)
            == Some(Product(MANAGED_PATH, [uri], suites, components))
  {
    hide FieldsOf, ArchiveStanza, Product, IsWord, HasType, Lower;
    ArchiveFields(uri, suites, components, keyring);
    DebIsType();
  }

  lemma ArchivesParse(r: Release, components: seq<string>, keyring: string)
    requires GoodParts(r, components, keyring)
    ensures ParseStanza(BaseStanza(r, components, keyring), MANAGED_PATH) == Some(BaseEntries(r, components))
    ensures ParseStanza(SecurityStanza(r, components, keyring), MANAGED_PATH) == Some(SecurityEntries(r, components))
  {
    hide ParseStanza, ArchiveStanza, Product, IsWord;
    MirrorsAreWords();
    SuffixedWord(r.codename, "-updates");
    SuffixedWord(r.codename, "-security");
    ArchiveParse(BASE_MIRROR, [r.codename, r.codename + "-updates"], components, keyring);
    ArchiveParse(SECURITY_MIRROR, [r.codename + "-security"], components, keyring);
    TwoSuites(MANAGED_PATH, BASE_MIRROR, r.codename, r.codename + "-updates", components);
    OneSuite(MANAGED_PATH, SECURITY_MIRROR, r.codename + "-security", components);
  }

  lemma {:induction false} SpacedNoBreak(words: seq<string>)
    requires forall w <- words :: IsWord(w)
    ensures '\n' !in Spaced(words)
  {
    SpacedHasNoBreak(words);
  }

  lemma BreakAtEnd(text: string)
    requires '\n' !in text
    ensures IsComplete(text + "\n")
  {
    forall i | 0 <= i < |text|
      ensures (text + "\n")[i] != '\n'
    {
      assert (text + "\n")[i] == text[i] && text[i] in text;
    }
  }

  lemma FieldTextComplete(name: string, words: seq<string>)
    requires IsWord(name) && words != [] && forall w <- words :: IsWord(w)
    ensures IsComplete(FieldText(name, words)) && !IsBlank(FieldText(name, words))
  {
    hide Spaced;
    SpacedNoBreak(words);
    var text := name + ([':'] + ([' '] + Spaced(words)));
    assert '\n' !in name by { assert IsSpace('\n'); }
    assert '\n' !in text;
    BreakAtEnd(text);
    assert FieldText(name, words) == text + "\n";
    assert name[0] in name && FieldText(name, words)[0] == name[0] && name[0] in FieldText(name, words);
  }

  lemma NamesAreWords()
    ensures IsWord("Types") && IsWord("URIs") && IsWord("Suites") && IsWord("Components") && IsWord("Signed-By")
            && IsWord("deb")
  {
    hide IsWord, Lower;
    NameTypes();
    NameUris();
    NameSuites();
    NameComponents();
    NameSignedBy();
    MirrorsAreWords();
  }

  lemma StanzaIsComplete(uri: string, suites: seq<string>, components: seq<string>, keyring: string)
    requires IsWord(uri) && IsWord(keyring) && suites != [] && components != []
    requires (forall w <- suites :: IsWord(w)) && forall w <- components :: IsWord(w)
    ensures forall l <- ArchiveStanza(uri, suites, components, keyring) :: IsComplete(l) && !IsBlank(l)
  {
    hide FieldText, IsComplete, IsBlank, IsWord;
    NamesAreWords();
    FieldTextComplete("Types", ["deb"]);
    FieldTextComplete("URIs", [uri]);
    FieldTextComplete("Suites", suites);
    FieldTextComplete("Components", components);
    FieldTextComplete("Signed-By", [keyring]);
  }

  predicate NoBreak(s: string) { '\n' !in s }

  lemma HeadIsComment()
    ensures IsComplete(HeadLine()) && IsComment(HeadLine()) && !IsBlank(HeadLine()) && MARKER <= HeadLine()
  {
    assert NoBreak(MARKER) && NoBreak(". Do not edit; ") && NoBreak("rerun infra_tools ") && NoBreak("after a Debian ");
    assert NoBreak("release change.");
    assert NoBreak(MARKER + HeadText());
    BreakAtEnd(MARKER + HeadText());
    assert HeadLine()[0] == '#' && !IsSpace('#') && HeadLine()[0] in HeadLine();
  }

  lemma BlankThen(s: seq<string>, rest: seq<string>)
    requires s != [] && forall l <- s :: !IsBlank(l)
    ensures StanzasFrom(s + (["\n"] + rest), []) == [s] + StanzasFrom(rest, [])
    ensures StanzasFrom(s, []) == [s]
  {
    RunOf(s, ["\n"] + rest, []);
    RunOf(s, [], []);
    assert s + [] == s && [] + s == s && (["\n"] + rest)[1..] == rest;
    assert IsBlank("\n") by { assert IsSpace('\n'); }
  }

  /** The lines of an optional stanza with the empty line before it. */
  function Optional(wanted: bool, s: seq<string>): seq<string> {
    if wanted then ["\n"] + s else []
  }

  lemma StanzasBehind(s: seq<string>, a: bool, x: seq<string>, b: bool, y: seq<string>)
    requires s != [] && x != [] && y != []
    requires (forall l <- s :: !IsBlank(l)) && (forall l <- x :: !IsBlank(l)) && forall l <- y :: !IsBlank(l)
    ensures StanzasFrom(s + (Optional(a, x) + Optional(b, y)), []) == [s]
            + ((if a then [x] else []) + (if b then [y] else []))
  {
    hide IsBlank;
    if a && b {
      assert s + ((["\n"] + x) + (["\n"] + y)) == s + (["\n"] + (x + (["\n"] + y)));
      BlankThen(s, x + (["\n"] + y));
      BlankThen(x, y);
      BlankThen(y, []);
    } else if a {
      assert s + ((["\n"] + x) + []) == s + (["\n"] + x);
      BlankThen(s, x);
      BlankThen(x, []);
    } else if b {
      assert s + ([] + (["\n"] + y)) == s + (["\n"] + y);
      BlankThen(s, y);
      BlankThen(y, []);
    } else {
      assert s + ([] + []) == s;
      BlankThen(s, []);
    }
  }

  lemma StanzasComplete(r: Release, components: seq<string>, keyring: string)
    requires GoodParts(r, components, keyring)
    ensures forall l <- BaseStanza(r, components, keyring) + SecurityStanza(r, components, keyring) ::
            IsComplete(l) && !IsBlank(l)
    ensures BaseStanza(r, components, keyring) != [] && SecurityStanza(r, components, keyring) != []
  {
    hide ArchiveStanza, IsWord, IsComplete, IsBlank;
    MirrorsAreWords();
    SuffixedWord(r.codename, "-updates");
    SuffixedWord(r.codename, "-security");
    StanzaIsComplete(BASE_MIRROR, [r.codename, r.codename + "-updates"], components, keyring);
    StanzaIsComplete(SECURITY_MIRROR, [r.codename + "-security"], components, keyring);
    NotEmptyStanza(BASE_MIRROR, [r.codename, r.codename + "-updates"], components, keyring);
    NotEmptyStanza(SECURITY_MIRROR, [r.codename + "-security"], components, keyring);
  }

  lemma NotEmptyStanza(uri: string, suites: seq<string>, components: seq<string>, keyring: string)
    ensures ArchiveStanza(uri, suites, components, keyring) != []
  {
  }

  /** The managed text read back. */
  lemma ManagedStanzas(r: Release, components: seq<string>, keyring: string, base: bool, security: bool)
    requires GoodParts(r, components, keyring)
    ensures StanzasFrom(SplitLines(ManagedText(r, components, keyring, base, security)), [])
         == [[HeadLine()]] + ((if base then [BaseStanza(r, components, keyring)] else [])
                              + (if security then [SecurityStanza(r, components, keyring)] else []))
  {
    hide BaseStanza, SecurityStanza, HeadLine, IsComplete, IsBlank, IsComment, GoodParts;
    var x, y := BaseStanza(r, components, keyring), SecurityStanza(r, components, keyring);
    StanzasComplete(r, components, keyring);
    HeadIsComment();
    LinesOf(HeadLine(), base, x, security, y);
    StanzasBehind([HeadLine()], base, x, security, y);
  }

  lemma LinesOf(head: string, a: bool, x: seq<string>, b: bool, y: seq<string>)
    requires IsComplete(head) && (forall l <- x + y :: IsComplete(l))
    ensures var lines := [head] + (Optional(a, x) + Optional(b, y)); SplitLines(Join(lines)) == lines
  {
    hide IsComplete;
    var lines := [head] + (Optional(a, x) + Optional(b, y));
    assert IsComplete("\n") by { EmptyLineComplete(); }
    forall l <- lines ensures IsComplete(l) { assert l == head || l == "\n" || l in x + y; }
    CompleteAreLines(lines);
    SplitJoined(lines);
  }

  lemma EmptyLineComplete()
    ensures IsComplete("\n")
  {
  }

  lemma HeadHasNothing()
    ensures FieldsOf([HeadLine()]) == Fields(map[], None) && ParseStanza([HeadLine()], MANAGED_PATH) == Some([])
  {
    hide HeadLine;
    HeadIsComment();
    CommentsHaveNoFields([HeadLine()]);
    NoFieldsNoEntries(MANAGED_PATH);
  }

  function ManagedEntries(r: Release, components: seq<string>, base: bool, security: bool): seq<Entry> {
    (if base then BaseEntries(r, components) else []) + (if security then SecurityEntries(r, components) else [])
  }

  lemma {:induction false} StanzaEntriesConcat(a: seq<seq<string>>, b: seq<seq<string>>, path: string)
    ensures StanzaEntries(a + b, path) == Combine(StanzaEntries(a, path), StanzaEntries(b, path))
  {
    hide ParseStanza;
    if a == [] {
      assert a + b == b;
      CombineNothing(StanzaEntries(b, path));
    } else {
      assert (a + b)[1..] == a[1..] + b;
      StanzaEntriesConcat(a[1..], b, path);
      CombineAssociates(ParseStanza(a[0], path), StanzaEntries(a[1..], path), StanzaEntries(b, path));
    }
  }

  lemma CombineAssociates(a: Option<seq<Entry>>, b: Option<seq<Entry>>, c: Option<seq<Entry>>)
    ensures Combine(Combine(a, b), c) == Combine(a, Combine(b, c))
  {
    if a.Some? && b.Some? && c.Some? { assert (a.value + b.value) + c.value == a.value + (b.value + c.value); }
  }

  lemma OneStanza(s: seq<string>, path: string)
    ensures StanzaEntries([s], path) == ParseStanza(s, path)
  {
    assert [s][1..] == [];
    var e := ParseStanza(s, path);
    if e.Some? { assert e.value + [] == e.value; }
  }

  lemma NoStanzas(path: string)
    ensures StanzaEntries([], path) == Some([])
  {
  }

  /** The managed file parses to exactly the archives that were asked for. */
  lemma ManagedParses(r: Release, components: seq<string>, keyring: string, base: bool, security: bool)
    requires GoodParts(r, components, keyring)
    ensures FileEntries(Source(MANAGED_PATH, true, ManagedText(r, components, keyring, base, security)))
         == Some(ManagedEntries(r, components, base, security))
  {
    hide BaseStanza, SecurityStanza, HeadLine, ParseStanza, StanzaEntries, StanzasFrom, ManagedText, GoodParts,
      BaseEntries, SecurityEntries;
    var x, y := BaseStanza(r, components, keyring), SecurityStanza(r, components, keyring);
    ManagedStanzas(r, components, keyring, base, security);
    ArchivesParse(r, components, keyring);
    HeadHasNothing();
    OneStanza([HeadLine()], MANAGED_PATH);
    OneStanza(x, MANAGED_PATH);
    OneStanza(y, MANAGED_PATH);
    NoStanzas(MANAGED_PATH);
    var a, b := if base then [x] else [], if security then [y] else [];
    StanzaEntriesConcat(a, b, MANAGED_PATH);
    StanzaEntriesConcat([[HeadLine()]], a + b, MANAGED_PATH);
    CombineNothing(StanzaEntries(a + b, MANAGED_PATH));
  }
}
