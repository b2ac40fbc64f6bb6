/** A repair killed between two file rewrites, and then run again. */
module AptRerun {
  import opened Wrappers
  import opened PyText
  import opened AptText
  import opened AptStanzas
  import opened AptSources
  import opened AptRepair

  /** A file which neither pass, the first one, or both have reached. */
  predicate Halfway(f: Source, g: Source, r: Release) {
    g == f || g == NoCdroms(f) || g == Repaired(f, r)
  }

  ghost predicate AllHalfway(files: seq<Source>, part: seq<Source>, r: Release) {
    |part| == |files| && forall i | 0 <= i < |files| :: Halfway(files[i], part[i], r)
  }

  /** A directory as the two passes may leave it, whichever files each has reached. */
  ghost predicate Interrupted(d: Dir, x: Dir, r: Release) {
    && AllHalfway(d.before, x.before, r) && AllHalfway(d.ManagedSources(), x.ManagedSources(), r)
    && AllHalfway(d.after, x.after, r)
  }

  // ---------------------------------------------------------------- the passes go on

  lemma CdromsGone(f: Source)
    ensures NoCdroms(NoCdroms(f)) == NoCdroms(f)
    ensures NoCdroms(f).path == f.path && NoCdroms(f).deb822 == f.deb822
  {
    hide Clean, DisableIn, Fair, CdromFields, NamesCdrom, StaleLine, StaleFields;
    KindsAreFair(f.path, Release("", _ => false, _ => false));
    DisableKeepsPath(f, NamesCdrom, CdromFields);
    DisabledIsClean(f, NamesCdrom, CdromFields, NamesCdrom, CdromFields);
    DisableFixesClean(NoCdroms(f), NamesCdrom, CdromFields);
  }

  lemma CdromsStillParse(f: Source)
    requires FileEntries(f).Some?
    ensures FileEntries(NoCdroms(f)).Some?
  {
    hide DisableIn, StanzaEntries, KeptStanzas, LineEntries, CdromFields, NamesCdrom, StanzasFrom, SplitLines;
    DisableParses(f, NamesCdrom, CdromFields);
    if f.deb822 { KeptStillParse(StanzasOf(f), Marks(CdromFields), f.path); }
  }

  /** The repair of a file that was left halfway is the repair of the file. */
  lemma FileGoesOn(f: Source, g: Source, r: Release)
    requires Halfway(f, g, r)
    ensures Repaired(g, r) == Repaired(f, r) && g.path == f.path && g.deb822 == f.deb822
    ensures FileEntries(f).Some? ==> FileEntries(g).Some?
  {
    hide IsRepaired, NoCdroms, NoStale, FileEntries;
    CdromsGone(f);
    RepairedIsRepaired(f, r);
    if FileEntries(f).Some? {
      CdromsStillParse(f);
      RepairedStillParse(f, r);
    }
    if g == Repaired(f, r) { RepairedIsRepaired(g, r); }
  }

  lemma {:induction false} FilesGoOn(files: seq<Source>, part: seq<Source>, r: Release)
    requires AllHalfway(files, part, r)
    ensures RepairAll(part, r) == RepairAll(files, r)
    ensures Entries(files).Some? ==> Entries(part).Some?
    ensures (forall f <- files :: f.path != MANAGED_PATH) ==> forall f <- part :: f.path != MANAGED_PATH
  {
    hide Halfway, Repaired, FileEntries;
    if files != [] {
      FileGoesOn(files[0], part[0], r);
      FilesGoOn(files[1..], part[1..], r);
      assert files[0] in files && (forall f <- files[1..] :: f in files) && [part[0]] + part[1..] == part;
    }
  }

  lemma ManagedGoesOn(d: Dir, x: Dir, r: Release)
    requires AllHalfway(d.ManagedSources(), x.ManagedSources(), r)
    ensures RepairDir(x, r).managed == RepairDir(d, r).managed
  {
    hide Halfway, Repaired, RepairAll;
    if d.managed.Some? {
      assert |x.ManagedSources()| == 1;
      FileGoesOn(d.ManagedSources()[0], x.ManagedSources()[0], r);
    } else {
      assert |x.ManagedSources()| == 0;
    }
  }

  lemma DirectoryGoesOn(d: Dir, x: Dir, r: Release)
    requires Interrupted(d, x, r)
    ensures RepairDir(x, r) == RepairDir(d, r)
    ensures d.Valid() ==> x.Valid()
    ensures Entries(d.All()).Some? ==> Entries(x.All()).Some?
  {
    hide AllHalfway, Repaired, RepairAll, Entries, Dir.ManagedSources, Dir.All;
    FilesGoOn(d.before, x.before, r);
    FilesGoOn(d.ManagedSources(), x.ManagedSources(), r);
    FilesGoOn(d.after, x.after, r);
    ManagedGoesOn(d, x, r);
    EntriesByPlace(d);
    EntriesByPlace(x);
    assert RepairAll(x.before, r) == RepairAll(d.before, r) && RepairAll(x.after, r) == RepairAll(d.after, r);
  }

  // --------------------------------------------------------------- main results

  /** After the repair an archive is missing, and nothing forbids to write the managed file. */
  predicate Writes(d: Dir, r: Release)
    requires Entries(RepairDir(d, r).All()).Some?
  {
    var d1 := RepairDir(d, r);
    var e := Entries(d1.All()).value;
    !(HasBase(e, r) && HasSecurity(e, r)) && (d1.managed.None? || Ours(d1))
  }

  /**
   Run again after a kill at whichever rewrite, the repair succeeds exactly when the undisturbed
   run does, and otherwise fails with the same error. It takes the components from what the
   killed run has left, so it ends in the same directory exactly when these are the same or
   the managed file is not written.
   */
  lemma KilledRunRecovers(d: Dir, x: Dir, r: Release, keyring: string)
    requires Ready(d, r, keyring) && Interrupted(d, x, r)
    ensures Ready(x, r, keyring) && Entries(RepairDir(d, r).All()).Some?
    ensures var once, again := Ensure(d, r, Some(keyring)), Ensure(x, r, Some(keyring));
            && (again.1.Ok? <==> once.1.Ok?) && (again.1.Err? ==> again.1 == once.1)
            && (again.0 == once.0 <==>
                  !Writes(d, r)
                  || ComponentsFor(Entries(x.All()).value, r) == ComponentsFor(Entries(d.All()).value, r))
  {
    hide AllRepaired, Entries, HasBase, HasSecurity, ManagedOf, HasMain, Ours, Complete, RepairDir, ComponentsFor,
      Ensure, GoodParts, Written, Interrupted, IsWord;
    DirectoryGoesOn(d, x, r);
    Prepared(d, r, keyring);
    Prepared(x, r, keyring);
    var d1 := RepairDir(d, r);
    var a, b := ComponentsFor(Entries(d.All()).value, r), ComponentsFor(Entries(x.All()).value, r);
    CompleteCases(d1, a, r, keyring);
    CompleteCases(d1, b, r, keyring);
    Provides(d1, r);
    if Writes(d, r) {
      var e := Entries(d1.All()).value;
      ComponentsAreWritten(d1, r, a, b, keyring, !HasBase(e, r), !HasSecurity(e, r));
    }
  }

  /** Kills behind the rewrites: the directory is then repaired, or already the final one. */
  lemma KilledLaterRecovers(d: Dir, r: Release, keyring: string)
    requires Ready(d, r, keyring)
    ensures var d1 := RepairDir(d, r);
            && Interrupted(d, d1, r) && Entries(d1.All()).Some?
            && (DropRedundant(d1, Entries(d1.All()).value, r) == d1
                || DropRedundant(d1, Entries(d1.All()).value, r) == Ensure(d, r, Some(keyring)).0)
  {
    hide AllRepaired, Entries, HasBase, HasSecurity, ManagedOf, HasMain, Complete, ComponentsFor, Ensure, GoodParts,
      Written, IsWord, Contains, RepairAll, Repaired, AllHalfway;
    RepairedIsHalfway(d.before, r);
    RepairedIsHalfway(d.after, r);
    ManagedIsHalfway(d, r);
    Prepared(d, r, keyring);
    var d1 := RepairDir(d, r);
    CompleteCases(d1, ComponentsFor(Entries(d.All()).value, r), r, keyring);
    Provides(d1, r);
  }

  lemma {:induction false} RepairedIsHalfway(files: seq<Source>, r: Release)
    ensures AllHalfway(files, RepairAll(files, r), r)
  {
    hide Repaired, NoCdroms;
    if files != [] {
      RepairedIsHalfway(files[1..], r);
      assert RepairAll(files, r) == [Repaired(files[0], r)] + RepairAll(files[1..], r);
    }
  }

  lemma ManagedIsHalfway(d: Dir, r: Release)
    ensures AllHalfway(d.ManagedSources(), RepairDir(d, r).ManagedSources(), r)
  {
    hide Repaired, NoCdroms, RepairAll, IsRepaired;
    if d.managed.Some? {
      RepairedIsRepaired(Source(MANAGED_PATH, true, d.managed.value), r);
      assert RepairDir(d, r).ManagedSources() == [Repaired(Source(MANAGED_PATH, true, d.managed.value), r)];
    }
  }

  /** The managed text tells the components apart. */
  lemma ComponentsAreWritten(
    d: Dir, r: Release, a: seq<string>, b: seq<string>, keyring: string, base: bool, security: bool)
    requires GoodParts(r, a, keyring) && GoodParts(r, b, keyring) && (base || security)
    ensures Written(d, r, a, keyring, base, security) == Written(d, r, b, keyring, base, security) <==> a == b
  {
    hide ManagedText, FileEntries, GoodParts, BaseEntries, SecurityEntries;
    ManagedParses(r, a, keyring, base, security);
    ManagedParses(r, b, keyring, base, security);
    FirstComponents(r, a, base, security);
    FirstComponents(r, b, base, security);
  }

  lemma FirstComponents(r: Release, components: seq<string>, base: bool, security: bool)
    requires base || security
    ensures var m := ManagedEntries(r, components, base, security); m != [] && m[0].components == components
  {
  }

  // ------------------------------------------------------------ forgotten components

  /** A file with one stanza, for a CD-ROM with main and one more component. */
  function CdromFile(path: string, uri: string, c: string, r: Release, keyring: string): Source {
    Source(path, true, Join(ArchiveStanza(uri, [r.codename], ["main", c], keyring)))
  }

  /** The setting of the example: any CD-ROM and any component but main. */
  ghost predicate Disc(path: string, uri: string, c: string, r: Release, keyring: string) {
    path != MANAGED_PATH && r.Valid() && IsWord(uri) && IsCdrom(uri) && IsComponent(c) && Lower(c) != "main"
    && IsWord(keyring)
  }

  lemma DiscStanza(path: string, uri: string, c: string, r: Release, keyring: string)
    requires Disc(path, uri, c, r, keyring)
    ensures var s := ArchiveStanza(uri, [r.codename], ["main", c], keyring);
            StanzasOf(CdromFile(path, uri, c, r, keyring)) == [s] && CdromFields(FieldsOf(s).values)
            && ParseStanza(s, path) == Some([Entry(path, uri, r.codename, ["main", c])])
  {
    hide FieldsOf, ArchiveStanza, Product, IsWord, HasType, Lower, IsCdrom, StanzasFrom, SplitLines, IsComplete,
      IsBlank;
    ComponentIsWord(c);
    MainIsMain();
    var s := ArchiveStanza(uri, [r.codename], ["main", c], keyring);
    ArchiveFields(uri, [r.codename], ["main", c], keyring);
    DebIsType();
    OneSuite(path, uri, r.codename, ["main", c]);
    StanzaIsComplete(uri, [r.codename], ["main", c], keyring);
    NotEmptyStanza(uri, [r.codename], ["main", c], keyring);
    CompleteAreLines(s);
    SplitJoined(s);
    BlankThen(s, []);
    assert uri in [uri];
  }

  /** Both passes comment the stanza out. */
  lemma DiscRepaired(path: string, uri: string, c: string, r: Release, keyring: string)
    requires Disc(path, uri, c, r, keyring)
    ensures var f := CdromFile(path, uri, c, r, keyring);
            FileEntries(f) == Some([Entry(path, uri, r.codename, ["main", c])])
            && FileEntries(NoCdroms(f)) == Some([]) && Repaired(f, r) == NoCdroms(f)
  {
    hide FieldsOf, ArchiveStanza, StanzasFrom, SplitLines, StaleFields, StaleLine, CdromFields, NamesCdrom, Rewritten,
      ParseStanza, IsComment, Disc;
    var f, s := CdromFile(path, uri, c, r, keyring), ArchiveStanza(uri, [r.codename], ["main", c], keyring);
    DiscStanza(path, uri, c, r, keyring);
    AptSources.OneStanza(s, path);
    assert s in StanzasOf(f) && [s][1..] == [];
    DisableParses(f, NamesCdrom, CdromFields);
    assert KeptStanzas([s], Marks(CdromFields)) == KeptStanzas([s][1..], Marks(CdromFields)) == [];
    KindsAreFair(path, r);
    RewrittenLacks(f, CdromFields, StaleFields(path, r));
    DisableFixesClean(NoCdroms(f), StaleLine(path, r), StaleFields(path, r));
  }

  lemma DiscComponents(path: string, uri: string, c: string, r: Release, keyring: string)
    requires Disc(path, uri, c, r, keyring)
    ensures ComponentsFor([Entry(path, uri, r.codename, ["main", c])], r) == ["main", c]
    ensures ComponentsFor([], r) == ["main"]
  {
    hide Lower, IsCdrom, IsWord;
    MainIsMain();
    NothingDistinct();
    var e := Entry(path, uri, r.codename, ["main", c]);
    assert [e][1..] == [] && ["main", c] + [] == ["main", c];
    assert RelevantComponents([e], r) == ["main", c];
    var words := ["main", c];
    assert IsComponent("main");
    assert Distinct(words, 1) == [] + ["main"] == ["main"];
    assert LowerAll(["main"]) == {"main"};
    assert Distinct(words, 2) == ["main"] + [c];
    assert "main" in LowerAll(["main", c]);
    assert ["main"] + [] == ["main"];
  }

  lemma OneFile(f: Source, r: Release)
    requires f.path != MANAGED_PATH
    ensures var d := Dir([f], None, []);
            d.Valid() && d.All() == [f] && d.Others() == [f] && Entries([f]) == FileEntries(f)
            && RepairDir(d, r) == Dir([Repaired(f, r)], None, [])
  {
    hide FileEntries, Repaired;
    assert [f][1..] == [] && [f] + [] + [] == [f];
    var e := FileEntries(f);
    if e.Some? { assert e.value + [] == e.value; }
  }

  /**
   The components are lost: on a directory with nothing but a CD-ROM, a run killed behind the
   first rewrite and run again asks for main alone, the undisturbed one for the CD-ROM's.
   */
  lemma KilledRunForgets(path: string, uri: string, c: string, r: Release, keyring: string)
    requires Disc(path, uri, c, r, keyring)
    ensures var f := CdromFile(path, uri, c, r, keyring);
            var d, x := Dir([f], None, []), Dir([NoCdroms(f)], None, []);
            && Ready(d, r, keyring) && Interrupted(d, x, r)
            && Ensure(d, r, Some(keyring)).0 == Written(x, r, ["main", c], keyring, true, true)
            && Ensure(x, r, Some(keyring)).0 == Written(x, r, ["main"], keyring, true, true)
            && Ensure(x, r, Some(keyring)).0 != Ensure(d, r, Some(keyring)).0
  {
    hide *;
    var f := CdromFile(path, uri, c, r, keyring);
    var g := NoCdroms(f);
    var d, x := Dir([f], None, []), Dir([g], None, []);
    DiscPlace(path, uri, c, r, keyring);
    DiscRepaired(path, uri, c, r, keyring);
    DiscComponents(path, uri, c, r, keyring);
    CdromsGone(f);
    RepairedIsRepaired(f, r);
    RepairedIsRepaired(g, r);
    OneFile(f, r);
    OneFile(g, r);
    IsReady(d, r, keyring);
    IsReady(x, r, keyring);
    FirstFileDone(f, r);
    BareRun(d, x, r, keyring);
    BareRun(x, x, r, keyring);
    Prepared(d, r, keyring);
    Prepared(x, r, keyring);
    ComponentsAreWritten(x, r, ["main", c], ["main"], keyring, true, true);
  }

  lemma DiscPlace(path: string, uri: string, c: string, r: Release, keyring: string)
    requires Disc(path, uri, c, r, keyring)
    ensures CdromFile(path, uri, c, r, keyring).path == path && path != MANAGED_PATH && r.Valid() && IsWord(keyring)
  {
  }

  lemma IsReady(d: Dir, r: Release, keyring: string)
    requires d.Valid() && r.Valid() && IsWord(keyring) && Entries(d.All()).Some?
    ensures Ready(d, r, keyring)
  {
  }

  lemma ReadyMeans(d: Dir, r: Release, keyring: string)
    requires Ready(d, r, keyring)
    ensures Entries(d.All()).Some?
  {
  }

  lemma FirstFileDone(f: Source, r: Release)
    ensures Interrupted(Dir([f], None, []), Dir([NoCdroms(f)], None, []), r)
  {
    hide NoCdroms, Repaired;
  }

  /** A run on a directory whose repaired files provide nothing. */
  lemma BareRun(d: Dir, d1: Dir, r: Release, keyring: string)
    requires Ready(d, r, keyring) && d1 == RepairDir(d, r) && d1.managed.None?
    requires Entries(d1.All()) == Some([]) && Entries(d1.Others()) == Some([])
    ensures Ensure(d, r, Some(keyring)).0
         == Written(d1, r, ComponentsFor(Entries(d.All()).value, r), keyring, true, true)
  {
    hide *;
    assert Entries(d.All()).Some? by { ReadyMeans(d, r, keyring); }
    Prepared(d, r, keyring);
    var components := ComponentsFor(Entries(d.All()).value, r);
    CompleteCases(d1, components, r, keyring);
    NothingManaged(d1, r);
  }
}
