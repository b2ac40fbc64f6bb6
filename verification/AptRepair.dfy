/** `ensure_debian_package_sources`: when it succeeds, and that a second run changes nothing. */
module AptRepair {
  import opened Wrappers
  import opened PyText
  import opened AptText
  import opened AptStanzas
  import opened AptSources

  datatype Failure = NoKeyring | Crash | NotOurs | CdromRemains | NotConfigured

  // ------------------------------------------------------------------ components

  predicate ComponentStart(c: char) { 'A' <= c <= 'Z' || 'a' <= c <= 'z' || '0' <= c <= '9' }

  predicate IsComponent(s: string) {
    s != "" && ComponentStart(s[0]) && forall c <- s :: ComponentStart(c) || c == '+' || c == '.' || c == '-'
  }

  predicate Relevant(e: Entry, r: Release) { r.base(e.uri) || r.security(e.uri) || IsCdrom(e.uri) }

  function RelevantComponents(entries: seq<Entry>, r: Release): seq<string> {
    if entries == [] then []
    else (if Relevant(entries[0], r) then entries[0].components else []) + RelevantComponents(entries[1..], r)
  }

  function LowerAll(words: seq<string>): set<string> { set w <- words :: Lower(w) }

  /** Well-formed components, the first of each spelling up to case. */
  function Distinct(words: seq<string>, n: nat): (c: seq<string>)
    requires n <= |words|
    ensures forall w <- c :: IsComponent(w)
  {
    if n == 0 then []
    else
      var c := Distinct(words, n - 1);
      if IsComponent(words[n - 1]) && Lower(words[n - 1]) !in LowerAll(c) then c + [words[n - 1]] else c
  }

  function ComponentsFor(entries: seq<Entry>, r: Release): seq<string> {
    var words := RelevantComponents(entries, r);
    var c := Distinct(words, |words|);
    if "main" !in LowerAll(c) then ["main"] + c else c
  }

  /** The inner loop: one entry's components. */
  method AddComponents(list: seq<string>, components: seq<string>, seen: set<string>, ghost before: seq<string>)
    returns (c: seq<string>, s: set<string>)
    requires components == Distinct(before, |before|) && seen == LowerAll(components)
    ensures c == Distinct(before + list, |before + list|) && s == LowerAll(c)
  {
    hide IsComponent, Lower, Distinct, LowerAll;
    c, s := components, seen;
    assert before + list[..0] == before;
    for j := 0 to |list|
      invariant c == Distinct(before + list[..j], |before + list[..j]|) && s == LowerAll(c)
    {
      var w := list[j];
      DistinctPrefix(before + list[..j], w);
      assert before + list[..j + 1] == (before + list[..j]) + [w];
      if IsComponent(w) && Lower(w) !in s {
        s := s + {Lower(w)};
        OneMoreLower(c, w);
        c := c + [w];
      }
    }
    assert list[..|list|] == list;
  }

  lemma FirstRelevant(entries: seq<Entry>, r: Release)
    requires entries != []
    ensures RelevantComponents(entries, r)
         == (if Relevant(entries[0], r) then entries[0].components else []) + RelevantComponents(entries[1..], r)
  {
  }

  method ComponentsForManagedSources(entries: seq<Entry>, r: Release) returns (components: seq<string>)
    ensures components == ComponentsFor(entries, r)
  {
    hide IsComponent, Lower, Relevant, Distinct, LowerAll;
    components := [];
    var seen: set<string> := {};
    ghost var words: seq<string> := [];
    NothingDistinct();
    assert entries[|entries|..] == [] && entries[0..] == entries;
    for i := 0 to |entries|
      invariant words + RelevantComponents(entries[i..], r) == RelevantComponents(entries, r)
      invariant components == Distinct(words, |words|) && seen == LowerAll(components)
    {
      hide RelevantComponents;
      var e, rest := entries[i], RelevantComponents(entries[i + 1..], r);
      assert entries[i..][0] == e && entries[i..][1..] == entries[i + 1..];
      FirstRelevant(entries[i..], r);
      if Relevant(e, r) {
        components, seen := AddComponents(e.components, components, seen, words);
        assert (words + e.components) + rest == words + (e.components + rest);
        words := words + e.components;
      } else {
        assert [] + rest == rest;
      }
    }
    assert words + [] == words;
    if "main" !in seen {
      components := ["main"] + components;
    }
  }

  lemma NothingDistinct()
    ensures Distinct([], 0) == [] && LowerAll([]) == {}
  {
  }

  lemma OneMoreLower(c: seq<string>, w: string)
    ensures LowerAll(c + [w]) == LowerAll(c) + {Lower(w)}
  {
    hide Lower;
  }

  lemma {:induction false} DistinctOf(a: seq<string>, w: string, n: nat)
    requires n <= |a|
    ensures Distinct(a + [w], n) == Distinct(a, n)
  {
    hide IsComponent, Lower;
    if n > 0 {
      DistinctOf(a, w, n - 1);
      assert (a + [w])[n - 1] == a[n - 1];
    }
  }

  lemma DistinctPrefix(words: seq<string>, w: string)
    ensures Distinct(words + [w], |words| + 1)
         == if IsComponent(w) && Lower(w) !in LowerAll(Distinct(words, |words|)) then Distinct(words, |words|) + [w]
           else Distinct(words, |words|)
  {
    hide IsComponent, Lower;
    DistinctOf(words, w, |words|);
    assert (words + [w])[|words|] == w;
  }

  lemma ComponentIsWord(w: string)
    requires IsComponent(w)
    ensures IsWord(w)
  {
  }

  lemma MainIsMain()
    ensures IsWord("main") && Lower("main") == "main"
  {
  }

  /** The components name main and are words. */
  lemma ComponentsAreGood(entries: seq<Entry>, r: Release)
    ensures var c := ComponentsFor(entries, r); c != [] && HasMain(c) && forall w <- c :: IsWord(w)
  {
    hide IsComponent, Lower, Distinct, RelevantComponents, IsWord;
    MainIsMain();
    var words := RelevantComponents(entries, r);
    var c := Distinct(words, |words|);
    forall w <- c ensures IsWord(w) { ComponentIsWord(w); }
    if "main" in LowerAll(c) {
      var w :| w in c && Lower(w) == "main";
    } else {
      assert "main" in ["main"] + c;
    }
  }

  // ------------------------------------------------------------------------- run

  function OthersOf(entries: seq<Entry>): seq<Entry> {
    if entries == [] then []
    else (if entries[0].path != MANAGED_PATH then [entries[0]] else []) + OthersOf(entries[1..])
  }

  predicate Ours(d: Dir) { d.managed.Some? && Contains(d.managed.value, MARKER) }

  /** The managed file adds nothing to what other files provide. */
  predicate Redundant(d: Dir, entries: seq<Entry>, r: Release) {
    Ours(d) && HasBase(OthersOf(entries), r) && HasSecurity(OthersOf(entries), r)
  }

  function DropRedundant(d: Dir, entries: seq<Entry>, r: Release): Dir {
    if Redundant(d, entries, r) then d.(managed := None) else d
  }

  function Checked(d: Dir, entries: seq<Entry>, r: Release): (Dir, Result<seq<Entry>, Failure>) {
    if exists e <- entries :: IsCdrom(e.uri) then (d, Err(CdromRemains))
    else if !HasBase(entries, r) || !HasSecurity(entries, r) then (d, Err(NotConfigured))
    else (d, Ok(entries))
  }

  /** What happens once the files have been repaired. */
  function Complete(d1: Dir, components: seq<string>, r: Release, keyring: string): (Dir, Result<seq<Entry>, Failure>) {
    if Entries(d1.All()).None? then (d1, Err(Crash))
    else
      var d2 := DropRedundant(d1, Entries(d1.All()).value, r);
      if Entries(d2.All()).None? then (d2, Err(Crash))
      else
        var e2 := Entries(d2.All()).value;
        if HasBase(e2, r) && HasSecurity(e2, r) then Checked(d2, e2, r)
        else if d2.managed.Some? && !Ours(d2) then (d2, Err(NotOurs))
        else
          var d3 := d2.(managed := Some(ManagedText(r, components, keyring, !HasBase(e2, r), !HasSecurity(e2, r))));
          if Entries(d3.All()).None? then (d3, Err(Crash)) else Checked(d3, Entries(d3.All()).value, r)
  }

  function Ensure(d: Dir, r: Release, keyring: Option<string>): (Dir, Result<seq<Entry>, Failure>) {
    if keyring.None? then (d, Err(NoKeyring))
    else if Entries(d.All()).None? then (d, Err(Crash))
    else Complete(RepairDir(d, r), ComponentsFor(Entries(d.All()).value, r), r, keyring.value)
  }

  // ------------------------------------------------------------ entries by place

  lemma {:induction false} EntriesConcat(a: seq<Source>, b: seq<Source>)
    ensures Entries(a + b) == Combine(Entries(a), Entries(b))
  {
    hide FileEntries;
    if a == [] {
      assert a + b == b;
      CombineNothing(Entries(b));
    } else {
      assert (a + b)[1..] == a[1..] + b;
      EntriesConcat(a[1..], b);
      CombineAssociates(FileEntries(a[0]), Entries(a[1..]), Entries(b));
    }
  }

  /** Entries of the other files, and of the managed one. */
  lemma EntriesByPlace(d: Dir)
    ensures Entries(d.All()) == Combine(Combine(Entries(d.before), Entries(d.ManagedSources())), Entries(d.after))
    ensures Entries(d.Others()) == Combine(Entries(d.before), Entries(d.after))
  {
    hide FileEntries, Entries;
    EntriesConcat(d.before + d.ManagedSources(), d.after);
    EntriesConcat(d.before, d.ManagedSources());
    EntriesConcat(d.before, d.after);
  }

  function ManagedOf(d: Dir): Option<seq<Entry>> {
    if d.managed.Some? then FileEntries(Source(MANAGED_PATH, true, d.managed.value)) else Some([])
  }

  lemma ManagedPlace(d: Dir)
    ensures Entries(d.ManagedSources()) == ManagedOf(d)
  {
    hide FileEntries;
    if d.managed.Some? {
      var f := Source(MANAGED_PATH, true, d.managed.value);
      assert [f][1..] == [];
      if FileEntries(f).Some? { assert FileEntries(f).value + [] == FileEntries(f).value; }
    }
  }

  /** An entry is in some file exactly when it is in another file or in the managed one. */
  lemma MembersByPlace(d: Dir)
    ensures Entries(d.All()).Some? <==> Entries(d.Others()).Some? && ManagedOf(d).Some?
    ensures Entries(d.All()).Some? ==>
              forall e :: e in Entries(d.All()).value <==> e in Entries(d.Others()).value || e in ManagedOf(d).value
  {
    hide Entries, ManagedOf;
    EntriesByPlace(d);
    ManagedPlace(d);
  }

  lemma {:induction false} LinePaths(lines: seq<string>, path: string)
    ensures forall e <- LineEntries(lines, path) :: e.path == path
  {
    hide Words, Uncommented, UriIndex;
    if lines != [] { LinePaths(lines[1..], path); }
  }

  lemma {:induction false} ProductPaths(path: string, uris: seq<string>, suites: seq<string>, components: seq<string>)
    ensures forall e <- Product(path, uris, suites, components) :: e.path == path
  {
    if uris != [] {
      UriPaths(path, uris[0], suites, components);
      ProductPaths(path, uris[1..], suites, components);
    }
  }

  lemma {:induction false} UriPaths(path: string, uri: string, suites: seq<string>, components: seq<string>)
    ensures forall e <- WithUri(path, uri, suites, components) :: e.path == path
  {
    if suites != [] { UriPaths(path, uri, suites[1..], components); }
  }

  lemma {:induction false} StanzaPaths(stanzas: seq<seq<string>>, path: string)
    ensures StanzaEntries(stanzas, path).Some? ==> forall e <- StanzaEntries(stanzas, path).value :: e.path == path
  {
    hide FieldsOf, HasType, Product;
    if stanzas != [] {
      var f := FieldsOf(stanzas[0]).values;
      ProductPaths(path, Get(f, "uris"), Get(f, "suites"), Get(f, "components"));
      StanzaPaths(stanzas[1..], path);
    }
  }

  lemma FilePaths(f: Source)
    ensures FileEntries(f).Some? ==> forall e <- FileEntries(f).value :: e.path == f.path
  {
    hide StanzaEntries, LineEntries;
    if f.deb822 { StanzaPaths(StanzasOf(f), f.path); } else { LinePaths(SplitLines(f.content), f.path); }
  }

  lemma {:induction false} EntryPaths(files: seq<Source>)
    requires forall f <- files :: f.path != MANAGED_PATH
    ensures Entries(files).Some? ==> forall e <- Entries(files).value :: e.path != MANAGED_PATH
  {
    hide FileEntries;
    if files != [] {
      assert files[0] in files && forall f <- files[1..] :: f in files;
      FilePaths(files[0]);
      EntryPaths(files[1..]);
    }
  }

  lemma {:induction false} OthersMembers(entries: seq<Entry>)
    ensures forall e :: e in OthersOf(entries) <==> e in entries && e.path != MANAGED_PATH
  {
    if entries != [] { OthersMembers(entries[1..]); }
  }

  /** Filtering by path gives the entries of the other files. */
  lemma OthersAre(d: Dir)
    requires d.Valid() && Entries(d.All()).Some?
    ensures Entries(d.Others()).Some?
    ensures forall e :: e in OthersOf(Entries(d.All()).value) <==> e in Entries(d.Others()).value
  {
    hide Entries, FileEntries;
    MembersByPlace(d);
    EntryPaths(d.Others());
    OthersMembers(Entries(d.All()).value);
    if d.managed.Some? { FilePaths(Source(MANAGED_PATH, true, d.managed.value)); }
  }

  lemma SameHas(a: seq<Entry>, b: seq<Entry>, r: Release)
    requires forall e :: e in a <==> e in b
    ensures HasBase(a, r) == HasBase(b, r) && HasSecurity(a, r) == HasSecurity(b, r)
  {
    hide IsBase, IsSecurity;
  }

  // ------------------------------------------------------------------ after repair

  ghost predicate AllRepaired(files: seq<Source>, r: Release) {
    forall f <- files :: IsRepaired(f, r)
  }

  lemma {:induction false} RepairAllRepairs(files: seq<Source>, r: Release)
    ensures AllRepaired(RepairAll(files, r), r)
    ensures (forall f <- files :: f.path != MANAGED_PATH) ==> forall f <- RepairAll(files, r) :: f.path != MANAGED_PATH
    ensures AllRepaired(files, r) ==> RepairAll(files, r) == files
    ensures Entries(files).Some? ==> Entries(RepairAll(files, r)).Some?
  {
    hide IsRepaired, FileEntries, Repaired;
    if files != [] {
      var f, rest := files[0], files[1..];
      assert f in files && forall g <- rest :: g in files;
      RepairedIsRepaired(f, r);
      RepairAllRepairs(rest, r);
      if FileEntries(f).Some? { RepairedStillParse(f, r); }
      assert RepairAll(files, r)[1..] == RepairAll(rest, r);
      assert [f] + rest == files;
    }
  }

  lemma ManagedRepairs(d: Dir, r: Release)
    ensures AllRepaired(RepairDir(d, r).ManagedSources(), r)
    ensures AllRepaired(d.ManagedSources(), r) ==> RepairDir(d, r).managed == d.managed
    ensures ManagedOf(d).Some? ==> ManagedOf(RepairDir(d, r)).Some?
  {
    hide IsRepaired, FileEntries, Repaired, RepairAll;
    if d.managed.Some? {
      var f := Source(MANAGED_PATH, true, d.managed.value);
      RepairedIsRepaired(f, r);
      assert Repaired(f, r) == Source(MANAGED_PATH, true, Repaired(f, r).content);
      if FileEntries(f).Some? { RepairedStillParse(f, r); }
      assert AllRepaired([f], r) ==> IsRepaired(f, r) by { assert f in [f]; }
    }
  }

  lemma PartsRepaired(d: Dir, r: Release)
    ensures AllRepaired(d.All(), r) <==>
            AllRepaired(d.before, r) && AllRepaired(d.ManagedSources(), r) && AllRepaired(d.after, r)
  {
    hide IsRepaired;
    var all := d.All();
    assert forall f :: f in all <==> f in d.before || f in d.ManagedSources() || f in d.after;
  }

  /** Repairing a directory repairs every file, breaks no parse, and leaves a repaired one alone. */
  lemma RepairDirRepairs(d: Dir, r: Release)
    ensures AllRepaired(RepairDir(d, r).All(), r)
    ensures d.Valid() ==> RepairDir(d, r).Valid()
    ensures AllRepaired(d.All(), r) ==> RepairDir(d, r) == d
    ensures Entries(d.All()).Some? ==> Entries(RepairDir(d, r).All()).Some?
  {
    hide AllRepaired, RepairAll, Entries, ManagedOf;
    var d1 := RepairDir(d, r);
    RepairAllRepairs(d.before, r);
    RepairAllRepairs(d.after, r);
    ManagedRepairs(d, r);
    PartsRepaired(d, r);
    PartsRepaired(d1, r);
    MembersByPlace(d);
    MembersByPlace(d1);
    EntriesByPlace(d);
    EntriesByPlace(d1);
  }

  lemma {:induction false} RepairedHasNoCdrom(files: seq<Source>, r: Release)
    requires AllRepaired(files, r) && Entries(files).Some?
    ensures forall e <- Entries(files).value :: !IsCdrom(e.uri)
  {
    hide IsRepaired, FileEntries, IsCdrom, IsStale;
    if files != [] {
      assert files[0] in files && forall f <- files[1..] :: f in files;
      RepairedEntries(files[0], r);
      RepairedHasNoCdrom(files[1..], r);
    }
  }

  // --------------------------------------------------------- the managed file again

  lemma NotCdrom(s: string)
    requires s != "" && s[0] == 'h'
    ensures !IsCdrom(s)
  {
    assert Lower(s)[0] == LowerChar(s[0]) && "cdrom:"[0] == 'c';
    FirstDiffers(Lower(s), "cdrom:");
  }

  lemma FirstDiffers(s: string, prefix: string)
    requires s != "" && prefix != "" && s[0] != prefix[0]
    ensures !StartsWith(s, prefix)
  {
  }

  lemma MirrorsAreRemote()
    ensures !IsCdrom(BASE_MIRROR) && !IsCdrom(SECURITY_MIRROR)
  {
    hide IsCdrom;
    NotCdrom(BASE_MIRROR);
    NotCdrom(SECURITY_MIRROR);
  }

  lemma SuffixesDiffer(w: string)
    ensures w != w + "-security" && w + "-updates" != w + "-security"
  {
    assert (w + "-updates")[|w| + 1] == 'u' && (w + "-security")[|w| + 1] == 's';
  }

  /** What the managed file provides is what was asked for. */
  lemma ManagedProvides(r: Release, components: seq<string>, base: bool, security: bool)
    requires r.Valid() && HasMain(components)
    ensures HasBase(ManagedEntries(r, components, base, security), r) <==> base
    ensures HasSecurity(ManagedEntries(r, components, base, security), r) <==> security
    ensures forall e <- ManagedEntries(r, components, base, security) :: !IsCdrom(e.uri) && !IsStale(e, r)
  {
    hide HasMain, IsCdrom;
    MirrorsAreRemote();
    SuffixesDiffer(r.codename);
    var m := ManagedEntries(r, components, base, security);
    var b, s := BaseEntries(r, components), SecurityEntries(r, components);
    assert forall e <- b :: e == b[0] || e == b[1];
    assert forall e <- s :: e == s[0];
    if base { assert b[0] in m && IsBase(b[0], r); }
    if security { assert s[0] in m && IsSecurity(s[0], r); }
  }

  lemma ArchiveIsFine(
    uri: string, suites: seq<string>, components: seq<string>, keyring: string, entries: seq<Entry>, r: Release)
    requires IsWord(uri) && IsWord(keyring) && suites != [] && components != []
    requires (forall w <- suites :: IsWord(w)) && forall w <- components :: IsWord(w)
    requires ParseStanza(ArchiveStanza(uri, suites, components, keyring), MANAGED_PATH) == Some(entries)
    requires !IsCdrom(uri) && forall e <- entries :: !IsStale(e, r)
    ensures var f := FieldsOf(ArchiveStanza(uri, suites, components, keyring)).values;
            !CdromFields(f) && !StaleFields(MANAGED_PATH, r)(f)
  {
    hide IsWord, IsCdrom, IsStale, ArchiveStanza, FieldsOf, Lower;
    ArchiveFields(uri, suites, components, keyring);
    assert forall u <- [uri] :: u == uri;
  }

  lemma ManagedIsRepaired(r: Release, components: seq<string>, keyring: string, base: bool, security: bool)
    requires GoodParts(r, components, keyring) && HasMain(components)
    ensures IsRepaired(Source(MANAGED_PATH, true, ManagedText(r, components, keyring, base, security)), r)
  {
    hide IsWord, IsCdrom, IsStale, ArchiveStanza, FieldsOf, Lower, ManagedText, ParseStanza, HeadLine, HasMain,
      StaleLine, CdromFields, StaleFields, SplitLines, StanzasFrom;
    var f := Source(MANAGED_PATH, true, ManagedText(r, components, keyring, base, security));
    ManagedStanzas(r, components, keyring, base, security);
    HeadHasNothing();
    ArchivesParse(r, components, keyring);
    ManagedProvides(r, components, true, true);
    MirrorsAreRemote();
    MirrorsAreWords();
    SuffixedWord(r.codename, "-updates");
    SuffixedWord(r.codename, "-security");
    KindsAreFair(MANAGED_PATH, r);
    ArchiveIsFine(BASE_MIRROR, [r.codename, r.codename + "-updates"], components, keyring, BaseEntries(r, components),
                  r);
    ArchiveIsFine(SECURITY_MIRROR, [r.codename + "-security"], components, keyring, SecurityEntries(r, components), r);
    forall s <- StanzasOf(f)
      ensures !CdromFields(FieldsOf(s).values) && !StaleFields(MANAGED_PATH, r)(FieldsOf(s).values)
    {
      assert s == [HeadLine()] || s == BaseStanza(r, components, keyring)
        || s == SecurityStanza(r, components, keyring);
    }
  }

  lemma ManagedIsOurs(r: Release, components: seq<string>, keyring: string, base: bool, security: bool)
    ensures Contains(ManagedText(r, components, keyring, base, security), MARKER)
  {
    hide HeadLine, BaseStanza, SecurityStanza;
    HeadIsComment();
    var text := ManagedText(r, components, keyring, base, security);
    assert ManagedLines(r, components, keyring, base, security)[0] == HeadLine();
    assert HeadLine() <= text && text[0..] == text;
    assert MARKER <= text[0..];
  }

  // --------------------------------------------------------------- main results

  /** The setting of a run that gets past its first checks. */
  ghost predicate Ready(d: Dir, r: Release, keyring: string) {
    d.Valid() && r.Valid() && IsWord(keyring) && Entries(d.All()).Some?
  }

  /** What one missing archive would take away: provided by the managed file alone. */
  ghost predicate OnlyManaged(d: Dir, r: Release)
    requires Entries(d.Others()).Some? && ManagedOf(d).Some?
  {
    var o, m := Entries(d.Others()).value, ManagedOf(d).value;
    (HasBase(m, r) && !HasBase(o, r)) || (HasSecurity(m, r) && !HasSecurity(o, r))
  }

  lemma HasUnion(all: seq<Entry>, o: seq<Entry>, m: seq<Entry>, r: Release)
    requires forall e :: e in all <==> e in o || e in m
    ensures HasBase(all, r) == (HasBase(o, r) || HasBase(m, r))
            && HasSecurity(all, r) == (HasSecurity(o, r) || HasSecurity(m, r))
  {
    hide IsBase, IsSecurity;
  }

  /** What a directory provides, by place, and when its managed file is redundant. */
  lemma Provides(d: Dir, r: Release)
    requires d.Valid() && Entries(d.All()).Some?
    ensures Entries(d.Others()).Some? && ManagedOf(d).Some?
    ensures var e, o, m := Entries(d.All()).value, Entries(d.Others()).value, ManagedOf(d).value;
            && HasBase(e, r) == (HasBase(o, r) || HasBase(m, r))
                 && HasSecurity(e, r) == (HasSecurity(o, r) || HasSecurity(m, r))
            && Redundant(d, e, r) == (Ours(d) && HasBase(o, r) && HasSecurity(o, r))
  {
    hide Entries, ManagedOf, HasBase, HasSecurity;
    MembersByPlace(d);
    OthersAre(d);
    HasUnion(Entries(d.All()).value, Entries(d.Others()).value, ManagedOf(d).value, r);
    SameHas(OthersOf(Entries(d.All()).value), Entries(d.Others()).value, r);
  }

  lemma WithoutManaged(d: Dir)
    ensures d.(managed := None).Others() == d.Others() && ManagedOf(d.(managed := None)) == Some([])
  {
  }

  function Written(d: Dir, r: Release, components: seq<string>, keyring: string, base: bool, security: bool): Dir {
    d.(managed := Some(ManagedText(r, components, keyring, base, security)))
  }

  /** The directory with a freshly written managed file. */
  lemma WrittenProvides(d: Dir, r: Release, components: seq<string>, keyring: string, base: bool, security: bool)
    requires d.Valid() && GoodParts(r, components, keyring) && HasMain(components)
    requires AllRepaired(d.All(), r) && Entries(d.All()).Some?
    ensures var w := Written(d, r, components, keyring, base, security);
            && w.Valid() && AllRepaired(w.All(), r) && Entries(w.All()).Some? && Ours(w)
            && Entries(w.Others()) == Entries(d.Others()) && Entries(d.Others()).Some?
            && ManagedOf(w) == Some(ManagedEntries(r, components, base, security))
            && HasBase(ManagedOf(w).value, r) == base && HasSecurity(ManagedOf(w).value, r) == security
  {
    hide AllRepaired, Entries, ManagedText, GoodParts, FileEntries, HasBase, HasSecurity, ManagedEntries, HasMain,
      Contains, IsRepaired;
    var w := Written(d, r, components, keyring, base, security);
    ManagedParses(r, components, keyring, base, security);
    ManagedIsRepaired(r, components, keyring, base, security);
    ManagedIsOurs(r, components, keyring, base, security);
    assert r.Valid() by { PartsValid(r, components, keyring); }
    ManagedProvides(r, components, base, security);
    PartsRepaired(d, r);
    PartsRepaired(w, r);
    OneRepaired(Source(MANAGED_PATH, true, w.managed.value), r);
    MembersByPlace(d);
    MembersByPlace(w);
  }

  lemma PartsValid(r: Release, components: seq<string>, keyring: string)
    requires GoodParts(r, components, keyring)
    ensures r.Valid()
  {
  }

  lemma OneRepaired(f: Source, r: Release)
    requires IsRepaired(f, r)
    ensures AllRepaired([f], r)
  {
    hide IsRepaired;
  }

  /** A repaired directory without CD-ROMs passes or fails on the two archives alone. */
  lemma CheckedBy(d: Dir, r: Release)
    requires AllRepaired(d.All(), r) && Entries(d.All()).Some?
    ensures var e := Entries(d.All()).value;
            Checked(d, e, r) == (d, if HasBase(e, r) && HasSecurity(e, r) then Ok(e) else Err(NotConfigured))
  {
    hide AllRepaired, Entries, HasBase, HasSecurity, IsCdrom;
    RepairedHasNoCdrom(d.All(), r);
  }

  /** How completion goes on a repaired directory. */
  lemma CompleteCases(d: Dir, components: seq<string>, r: Release, keyring: string)
    requires d.Valid() && GoodParts(r, components, keyring) && HasMain(components) && AllRepaired(d.All(), r)
             && Entries(d.All()).Some?
    ensures Entries(d.Others()).Some? && ManagedOf(d).Some?
    ensures var o, m := Entries(d.Others()).value, ManagedOf(d).value;
            var hb, hs := HasBase(o, r) || HasBase(m, r), HasSecurity(o, r) || HasSecurity(m, r);
            var t := Complete(d, components, r, keyring);
            && t.0.Valid() && AllRepaired(t.0.All(), r) && Entries(t.0.All()).Some?
            && (Ours(d) && HasBase(o, r) && HasSecurity(o, r) ==> t.0 == d.(managed := None) && t.1.Ok?)
            && (!(Ours(d) && HasBase(o, r) && HasSecurity(o, r)) && hb && hs ==> t.0 == d && t.1.Ok?)
            && (!(hb && hs) && d.managed.Some? && !Ours(d) ==> t == (d, Err(NotOurs)))
            && (!(hb && hs) && (d.managed.None? || Ours(d)) ==>
                  t.0 == Written(d, r, components, keyring, !hb, !hs)
                  && t.1 == if (HasBase(o, r) || !hb) && (HasSecurity(o, r) || !hs) then Ok(Entries(t.0.All()).value)
                       else Err(NotConfigured))
            && (t.1.Ok? ==> t.1.value == Entries(t.0.All()).value)
  {
    hide AllRepaired, Entries, HasBase, HasSecurity, ManagedOf, GoodParts, HasMain, Redundant, Ours, ManagedEntries,
      Checked, Contains;
    Provides(d, r);
    CheckedBy(d, r);
    var o, m := Entries(d.Others()).value, ManagedOf(d).value;
    var hb, hs := HasBase(o, r) || HasBase(m, r), HasSecurity(o, r) || HasSecurity(m, r);
    if Ours(d) && HasBase(o, r) && HasSecurity(o, r) {
      var bare := d.(managed := None);
      BareCase(d, r);
      CheckedBy(bare, r);
    } else if !(hb && hs) && (d.managed.None? || Ours(d)) {
      WrittenProvides(d, r, components, keyring, !hb, !hs);
      var w := Written(d, r, components, keyring, !hb, !hs);
      Provides(w, r);
      CheckedBy(w, r);
    }
  }

  /** Dropping the managed file. */
  lemma BareCase(d: Dir, r: Release)
    requires d.Valid() && AllRepaired(d.All(), r) && Entries(d.All()).Some?
    ensures var b := d.(managed := None);
            b.Valid() && AllRepaired(b.All(), r) && Entries(b.All()).Some? && Entries(d.Others()).Some?
            && HasBase(Entries(b.All()).value, r) == HasBase(Entries(d.Others()).value, r)
            && HasSecurity(Entries(b.All()).value, r) == HasSecurity(Entries(d.Others()).value, r)
  {
    hide AllRepaired, Entries, HasBase, HasSecurity, ManagedOf;
    var b := d.(managed := None);
    MembersByPlace(d);
    MembersByPlace(b);
    WithoutManaged(d);
    PartsRepaired(d, r);
    PartsRepaired(b, r);
    NothingRepaired(r);
    SameHas(Entries(b.All()).value, Entries(d.Others()).value, r);
  }

  lemma NothingRepaired(r: Release)
    ensures AllRepaired([], r)
  {
  }

  /** The directory once its files are repaired, and the components it asks for. */
  lemma Prepared(d: Dir, r: Release, keyring: string)
    requires Ready(d, r, keyring)
    ensures var d1, components := RepairDir(d, r), ComponentsFor(Entries(d.All()).value, r);
            && d1.Valid() && AllRepaired(d1.All(), r) && Entries(d1.All()).Some?
            && GoodParts(r, components, keyring) && HasMain(components)
            && Ensure(d, r, Some(keyring)) == Complete(d1, components, r, keyring)
  {
    hide AllRepaired, RepairDir, Entries, HasMain, ComponentsFor, IsWord, Complete;
    RepairDirRepairs(d, r);
    ComponentsAreGood(Entries(d.All()).value, r);
  }

  /**
   The final checks pass exactly when, after the repair, both archives are there, or
   the managed file is ours (or absent) and provides nothing that no other file provides.
   No CD-ROM ever remains.
   */
  lemma EnsureSucceedsExactlyWhen(d: Dir, r: Release, keyring: string)
    requires Ready(d, r, keyring)
    ensures var d1, t := RepairDir(d, r), Ensure(d, r, Some(keyring));
            && Entries(d1.All()).Some? && Entries(d1.Others()).Some? && ManagedOf(d1).Some?
            && (t.1.Ok? <==>
                  (HasBase(Entries(d1.All()).value, r) && HasSecurity(Entries(d1.All()).value, r))
                  || ((d1.managed.None? || Ours(d1)) && !OnlyManaged(d1, r)))
            && (t.1.Ok? ==> Entries(t.0.All()) == Some(t.1.value) && HasBase(t.1.value, r) && HasSecurity(t.1.value, r)
                            && forall e <- t.1.value :: !IsCdrom(e.uri))
            && (t.1.Err? ==> t.1.error == NotOurs || t.1.error == NotConfigured)
  {
    hide AllRepaired, Entries, HasBase, HasSecurity, ManagedOf, HasMain, Ours, Complete, RepairDir, ComponentsFor,
      IsCdrom, Ensure, GoodParts, Written;
    Prepared(d, r, keyring);
    var d1, components := RepairDir(d, r), ComponentsFor(Entries(d.All()).value, r);
    CompleteCases(d1, components, r, keyring);
    Provides(d1, r);
    var t := Ensure(d, r, Some(keyring));
    if t.1.Ok? {
      RepairedHasNoCdrom(t.0.All(), r);
      OkProvides(d1, components, r, keyring);
    }
  }

  /** A successful completion provides both archives. */
  lemma OkProvides(d: Dir, components: seq<string>, r: Release, keyring: string)
    requires Complete(d, components, r, keyring).1.Ok?
    ensures var e := Complete(d, components, r, keyring).1.value; HasBase(e, r) && HasSecurity(e, r)
  {
    hide Entries, HasBase, HasSecurity, IsCdrom, ManagedText, Redundant, Ours;
  }

  /** Without a managed file at the start nothing can go wrong. */
  lemma FreshStartSucceeds(d: Dir, r: Release, keyring: string)
    requires Ready(d, r, keyring) && d.managed.None?
    ensures Ensure(d, r, Some(keyring)).1.Ok?
  {
    hide Entries, HasBase, HasSecurity, ManagedText, Complete, FileEntries, Ensure, RepairAll;
    EnsureSucceedsExactlyWhen(d, r, keyring);
    assert !HasBase([], r) && !HasSecurity([], r) by { NothingProvided(r); }
  }

  lemma NothingProvided(r: Release)
    ensures !HasBase([], r) && !HasSecurity([], r)
  {
  }

  /** What a successful run leaves is complete and not redundant. */
  lemma NotRedundantAfter(d: Dir, components: seq<string>, r: Release, keyring: string)
    requires d.Valid() && GoodParts(r, components, keyring) && HasMain(components) && AllRepaired(d.All(), r)
             && Entries(d.All()).Some?
    requires Complete(d, components, r, keyring).1.Ok?
    ensures var d3 := Complete(d, components, r, keyring).0;
            Entries(d3.Others()).Some?
            && !(Ours(d3) && HasBase(Entries(d3.Others()).value, r) && HasSecurity(Entries(d3.Others()).value, r))
  {
    hide AllRepaired, Entries, HasBase, HasSecurity, ManagedOf, GoodParts, HasMain, Complete, ManagedText, Contains,
      ManagedEntries;
    CompleteCases(d, components, r, keyring);
    Provides(d, r);
    Provides(Complete(d, components, r, keyring).0, r);
    assert Written(d, r, components, keyring, true, true).Others() == d.Others();
  }

  /** A second run changes nothing and finds what the first one found. */
  lemma EnsureIsIdempotent(d: Dir, r: Release, keyring: string)
    requires Ready(d, r, keyring) && Ensure(d, r, Some(keyring)).1.Ok?
    ensures Ensure(Ensure(d, r, Some(keyring)).0, r, Some(keyring)) == Ensure(d, r, Some(keyring))
  {
    hide AllRepaired, Entries, HasBase, HasSecurity, ManagedOf, HasMain, Ours, Complete, RepairDir, ComponentsFor,
      IsCdrom, Ensure, GoodParts, ManagedText;
    Prepared(d, r, keyring);
    var d1, components := RepairDir(d, r), ComponentsFor(Entries(d.All()).value, r);
    CompleteCases(d1, components, r, keyring);
    NotRedundantAfter(d1, components, r, keyring);
    OkProvides(d1, components, r, keyring);
    var d3 := Complete(d1, components, r, keyring).0;
    assert Ready(d3, r, keyring);
    Prepared(d3, r, keyring);
    RepairDirRepairs(d3, r);
    var again := ComponentsFor(Entries(d3.All()).value, r);
    CompleteCases(d3, again, r, keyring);
    Provides(d3, r);
  }

  /** What `NotConfigured` means: one archive came from the managed file alone, and rewriting it dropped that one. */
  lemma FailedHalf(d: Dir, components: seq<string>, r: Release, keyring: string)
    requires d.Valid() && GoodParts(r, components, keyring) && HasMain(components) && AllRepaired(d.All(), r)
             && Entries(d.All()).Some?
    requires Complete(d, components, r, keyring).1 == Err(NotConfigured)
    ensures var w := Complete(d, components, r, keyring).0;
            && w.Valid() && AllRepaired(w.All(), r) && Entries(w.All()).Some? && Ours(w)
            && Entries(w.Others()).Some? && ManagedOf(w).Some?
            && var o, m := Entries(w.Others()).value, ManagedOf(w).value;
               (HasBase(m, r) && !HasBase(o, r) && !HasSecurity(o, r) && !HasSecurity(m, r))
               || (HasSecurity(m, r) && !HasSecurity(o, r) && !HasBase(o, r) && !HasBase(m, r))
  {
    hide AllRepaired, Entries, HasBase, HasSecurity, ManagedOf, GoodParts, HasMain, Ours, Complete, ManagedText,
      Contains, ManagedEntries;
    CompleteCases(d, components, r, keyring);
    Provides(d, r);
    var o, m := Entries(d.Others()).value, ManagedOf(d).value;
    var hb, hs := HasBase(o, r) || HasBase(m, r), HasSecurity(o, r) || HasSecurity(m, r);
    WrittenProvides(d, r, components, keyring, !hb, !hs);
  }

  /** A run fails that way exactly when one archive comes from the managed file alone and the other from nowhere. */
  lemma NotConfiguredExactlyWhen(d: Dir, r: Release, keyring: string)
    requires Ready(d, r, keyring)
    ensures var d1 := RepairDir(d, r);
            && Entries(d1.All()).Some? && Entries(d1.Others()).Some? && ManagedOf(d1).Some?
            && (Ensure(d, r, Some(keyring)).1 == Err(NotConfigured) <==>
                  && OnlyManaged(d1, r) && Ours(d1)
                  && !(HasBase(Entries(d1.All()).value, r) && HasSecurity(Entries(d1.All()).value, r)))
  {
    hide AllRepaired, Entries, HasBase, HasSecurity, ManagedOf, HasMain, Ours, Complete, RepairDir, ComponentsFor,
      IsCdrom, Ensure, GoodParts, Written;
    Prepared(d, r, keyring);
    var d1, components := RepairDir(d, r), ComponentsFor(Entries(d.All()).value, r);
    CompleteCases(d1, components, r, keyring);
    Provides(d1, r);
    if d1.managed.None? { NothingManaged(d1, r); }
  }

  lemma NothingManaged(d: Dir, r: Release)
    requires d.managed.None?
    ensures ManagedOf(d) == Some([]) && !HasBase([], r) && !HasSecurity([], r)
  {
    WithoutManaged(d);
    assert d.(managed := None) == d;
    NothingProvided(r);
  }

  /** A directory on which it fails: nothing but our own file, and in it only the base archive. */
  lemma HalfManagedFails(r: Release, keyring: string)
    requires r.Valid() && IsWord(keyring)
    ensures var d := Written(Dir([], None, []), r, ["main"], keyring, true, false);
            Ready(d, r, keyring) && Ensure(d, r, Some(keyring)).1 == Err(NotConfigured)
  {
    hide AllRepaired, Entries, HasBase, HasSecurity, ManagedOf, HasMain, Ours, Ensure, RepairDir, ManagedText,
      ManagedEntries, Contains, IsCdrom, Lower, IsWord, FileEntries;
    var bare := Dir([], None, []);
    var d := Written(bare, r, ["main"], keyring, true, false);
    MainAlone();
    NothingIn(r);
    WrittenProvides(bare, r, ["main"], keyring, true, false);
    RepairDirRepairs(d, r);
    NotConfiguredExactlyWhen(d, r, keyring);
    Provides(d, r);
    NothingProvided(r);
  }

  lemma MainAlone()
    ensures HasMain(["main"]) && IsWord("main")
  {
    assert "main" in ["main"] && Lower("main") == "main";
  }

  lemma NothingIn(r: Release)
    ensures var bare := Dir([], None, []);
            bare.Valid() && bare.All() == [] && AllRepaired(bare.All(), r) && Entries(bare.All()) == Some([])
            && Entries(bare.Others()) == Some([])
  {
  }

  /** Once it has failed that way, it fails on every run: the two halves replace each other. */
  lemma HalfManagedNeverRecovers(d: Dir, r: Release, keyring: string)
    requires Ready(d, r, keyring) && Ensure(d, r, Some(keyring)).1 == Err(NotConfigured)
    ensures var again := Ensure(d, r, Some(keyring)).0;
            Ready(again, r, keyring) && Ensure(again, r, Some(keyring)).1 == Err(NotConfigured)
  {
    hide AllRepaired, Entries, HasBase, HasSecurity, ManagedOf, HasMain, Ours, Complete, RepairDir, ComponentsFor,
      IsCdrom, Ensure, GoodParts, ManagedText;
    Prepared(d, r, keyring);
    var d1, components := RepairDir(d, r), ComponentsFor(Entries(d.All()).value, r);
    FailedHalf(d1, components, r, keyring);
    var w := Complete(d1, components, r, keyring).0;
    assert Ready(w, r, keyring);
    Prepared(w, r, keyring);
    RepairDirRepairs(w, r);
    CompleteCases(w, ComponentsFor(Entries(w.All()).value, r), r, keyring);
    Provides(w, r);
  }

  // ------------------------------------------------- an `Enabled` field without a value

  predicate EmptyEnabled(values: map<string, seq<string>>) {
    "enabled" in values && values["enabled"] == []
  }

  /** A deb822 file with a stanza whose `Enabled` field is there and empty. */
  ghost predicate Unreadable(f: Source) {
    f.deb822 && exists s <- StanzasOf(f) :: EmptyEnabled(FieldsOf(s).values)
  }

  lemma {:induction false} StanzasStopExactlyWhen(stanzas: seq<seq<string>>, path: string)
    ensures StanzaEntries(stanzas, path).None? <==> exists s <- stanzas :: EmptyEnabled(FieldsOf(s).values)
    decreases |stanzas|
  {
    hide FieldsOf, HasType, Product, Lower;
    if stanzas != [] {
      StanzasStopExactlyWhen(stanzas[1..], path);
      assert forall s :: s in stanzas <==> s == stanzas[0] || s in stanzas[1..];
    }
  }

  lemma FileStopsExactlyWhen(f: Source)
    ensures FileEntries(f).None? <==> Unreadable(f)
  {
    hide StanzaEntries, LineEntries, StanzasFrom, SplitLines, EmptyEnabled, FieldsOf;
    StanzasStopExactlyWhen(StanzasOf(f), f.path);
  }

  /** Reading stops exactly when some deb822 file has such a stanza. */
  lemma {:induction false} ReadingStopsExactlyWhen(files: seq<Source>)
    ensures Entries(files).None? <==> exists f <- files :: Unreadable(f)
    decreases |files|
  {
    hide FileEntries, Unreadable;
    if files != [] {
      ReadingStopsExactlyWhen(files[1..]);
      FileStopsExactlyWhen(files[0]);
      assert forall f :: f in files <==> f == files[0] || f in files[1..];
    }
  }

  /** The whole run then stops before it has changed anything, and it stops for no other reason. */
  lemma RunStopsExactlyWhen(d: Dir, r: Release, keyring: string)
    requires d.Valid() && r.Valid() && IsWord(keyring)
    ensures Ensure(d, r, Some(keyring)).1 == Err(Crash) <==> exists f <- d.All() :: Unreadable(f)
    ensures (exists f <- d.All() :: Unreadable(f)) ==> Ensure(d, r, Some(keyring)).0 == d
  {
    hide Entries, Unreadable, Complete, RepairDir, HasBase, HasSecurity, ManagedOf, IsWord;
    ReadingStopsExactlyWhen(d.All());
    if Entries(d.All()).Some? {
      EnsureSucceedsExactlyWhen(d, r, keyring);
    }
  }

  lemma EmptyFieldLine(f: Fields, name: string, key: string)
    requires f.key.Some? ==> f.key.value in f.values
    requires IsName(name, key)
    ensures FieldStep(f, FieldText(name, [])) == Fields(f.values[key := []], Some(key))
    ensures !IsBlank(FieldText(name, []))
  {
    hide Lower, Words;
    var rest := " \n";
    var line := name + ([':'] + rest);
    assert FieldText(name, []) == line;
    SplitAtColon(name, rest);
    WordsOfBlank(rest);
    assert line[0] == name[0] && name[0] in name && name[0] in line;
    assert LStrip(line) == line && LStrip(name) == name;
    assert name[|name| - 1] in name && RStrip(name) == name;
    assert line[|name|] == ':';
  }

  lemma NameEnabled()
    ensures IsName("Enabled", "enabled") && NoBreak("Enabled")
  {
    hide IsWord, Lower;
    var a, b := "Enab", "led";
    EnabledPieces();
    PlainConcat(a, b);
    PlainIsWord(a + b);
    LowerConcat(a, b);
    assert "Enabled" == a + b;
  }

  lemma EnabledPieces()
    ensures Plain("Enab") && Plain("led") && Lower("Enab") == "enab" && Lower("led") == "led"
  {
  }

  /** A file that nothing can be read from: one line that names `Enabled` and gives no value. */
  lemma EmptyEnabledStops(path: string)
    ensures Unreadable(Source(path, true, FieldText("Enabled", [])))
            && Entries([Source(path, true, FieldText("Enabled", []))]).None?
  {
    hide FieldText, FieldStep, FieldsOf, IsName, SplitLines, StanzasFrom, Entries;
    var line := FieldText("Enabled", []);
    var f := Source(path, true, line);
    NameEnabled();
    NoFields();
    EmptyFieldLine(FieldsOf([]), "Enabled", "enabled");
    FieldsSnoc([], line);
    assert [] + [line] == [line];
    OneStanza(line);
    assert [line] in StanzasOf(f);
    assert EmptyEnabled(FieldsOf([line]).values);
    ReadingStopsExactlyWhen([f]);
    assert f in [f];
  }

  lemma OneStanza(line: string)
    requires line == FieldText("Enabled", []) && !IsBlank(line)
    ensures StanzasFrom(SplitLines(line), []) == [[line]]
  {
    hide SplitLines, IsBlank;
    NameEnabled();
    var text := "Enabled" + ": ";
    assert line == text + "\n" && NoBreak(text);
    BreakAtEnd(text);
    assert Join([line]) == line by { assert [line][1..] == []; }
    SplitJoined([line]);
    assert [line][1..] == [] && [] + [line] == [line];
    assert StanzasFrom([], [line]) == [[line]];
    assert StanzasFrom([line], []) == StanzasFrom([line][1..], [] + [line]);
  }
}
