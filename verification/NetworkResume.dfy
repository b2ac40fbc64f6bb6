/**
 For every backend: a persist or a restore that is interrupted anywhere leaves a
 state from which persisting ends as if it had started at the captured base.
 */
module NetworkResume {
  import opened Wrappers
  import opened PyText
  import opened Ifupdown
  import opened NetworkStore
  import opened NetworkRestore
  import opened NetworkConfluence

  // ------------------------------------------------------------- constant writes

  ghost predicate NoLinksOutside(base: Files, listing: seq<Path>, free: set<Path>) {
    forall p <- listing | p in base && base[p].Link? :: p in free
  }

  ghost predicate Restorable(base: Files, listing: seq<Path>) {
    && (forall p <- listing | p in base :: !base[p].Directory?)
    && (forall p <- listing | p in base && base[p].File? :: '\r' !in base[p].content)
  }

  lemma SnapShows(base: Files, p: Path, files: Files)
    requires p in base ==> !base[p].Directory?
    requires p in base && base[p].File? ==> '\r' !in base[p].content
    ensures At(RestoreOne(files, Snap(base, p)), p) == At(base, p)
    ensures AgreeOutside(RestoreOne(files, Snap(base, p)), files, {p})
  {
    if p in base && base[p].File? { UniversalExact(base[p].content); }
  }

  /** What some of the steps of one restore leave: all of it, or the path removed. */
  lemma PartOfRestore(s: Store, base: Files, p: Path, k: nat, interface: string)
    requires p in base ==> !base[p].Directory?
    requires k < |RestoreSteps(Snap(base, p))|
    ensures var after := Exec(s, RestoreSteps(Snap(base, p)), k, interface);
            after.connections == s.connections
            && (after == s || (p in base && base[p].Link? && after.files == s.files - {p}))
  {
    if k == 1 {
      assert Exec(s, RestoreSteps(Snap(base, p)), 0, interface) == s;
    }
  }

  /** The snapshots from `i` on. */
  function SnapsFrom(base: Files, listing: seq<Path>, i: nat): seq<Snapshot>
    requires i <= |listing| && forall p <- listing | p in base :: !base[p].Directory?
  {
    Snaps(base, listing)[i..]
  }

  lemma NextRestore(s: Store, base: Files, listing: seq<Path>, i: nat, k: nat, interface: string)
    requires i < |listing| && Restorable(base, listing)
    requires k <= |RestoreFiles(SnapsFrom(base, listing, i))|
    ensures var steps, rest := RestoreSteps(Snap(base, listing[i])), RestoreFiles(SnapsFrom(base, listing, i + 1));
            RestoreFiles(SnapsFrom(base, listing, i)) == steps + rest
            && (k < |steps| ==>
                Exec(s, RestoreFiles(SnapsFrom(base, listing, i)), k, interface) == Exec(s, steps, k, interface))
            && (k >= |steps| ==> Exec(s, RestoreFiles(SnapsFrom(base, listing, i)), k, interface)
                                 == Exec(s.(files := RestoreOne(s.files, Snap(base, listing[i]))), rest, k - |steps|,
                                         interface))
  {
    hide Exec, Effect, RestoreOne;
    var snaps := SnapsFrom(base, listing, i);
    assert listing[i] in listing && snaps[0] == Snap(base, listing[i]) && snaps[1..] == SnapsFrom(base, listing, i + 1);
    var steps, rest := RestoreSteps(snaps[0]), RestoreFiles(snaps[1..]);
    if k < |steps| {
      ExecPrefix(s, steps, rest, k, interface);
    } else {
      ExecConcat(s, steps, rest, k - |steps|, interface);
      ExecRestoreOne(s, snaps[0], interface);
    }
  }

  lemma StillAgrees(after: Files, files: Files, base: Files, p: Path, free: set<Path>)
    requires AgreeOutside(files, base, free) && AgreeOutside(after, files, {p})
             && (p in free || At(after, p) == At(base, p))
    ensures AgreeOutside(after, base, free)
  {
    forall r | r !in free
      ensures At(after, r) == At(base, r)
    {
      assert r == p || At(after, r) == At(files, r);
    }
  }

  /** Where only `free` paths differ, only they differ during a restore. */
  lemma {:induction false} RestoreKeepsAgreement(
    s: Store, base: Files, listing: seq<Path>, i: nat, k: nat, free: set<Path>, interface: string)
    requires i <= |listing| && Restorable(base, listing) && NoLinksOutside(base, listing, free)
    requires AgreeOutside(s.files, base, free) && k <= |RestoreFiles(SnapsFrom(base, listing, i))|
    ensures var after := Exec(s, RestoreFiles(SnapsFrom(base, listing, i)), k, interface);
            AgreeOutside(after.files, base, free) && after.connections == s.connections
    decreases |listing| - i
  {
    if i < |listing| {
      hide Exec, Snap, RestoreOne, RestoreSteps;
      var p := listing[i];
      assert p in listing;
      NextRestore(s, base, listing, i, k, interface);
      if k < |RestoreSteps(Snap(base, p))| {
        PartOfRestore(s, base, p, k, interface);
        StillAgrees(Exec(s, RestoreSteps(Snap(base, p)), k, interface).files, s.files, base, p, free);
      } else {
        var next := s.(files := RestoreOne(s.files, Snap(base, p)));
        SnapShows(base, p, s.files);
        StillAgrees(next.files, s.files, base, p, free);
        RestoreKeepsAgreement(next, base, listing, i + 1, k - |RestoreSteps(Snap(base, p))|, free, interface);
      }
    } else {
      assert SnapsFrom(base, listing, i) == [];
    }
  }

  // ------------------------------------------------------------------- ifupdown

  /** A path comes before its backup. */
  ghost predicate FilesFirst(listing: seq<Path>) {
    forall i, j | 0 <= i < j < |listing| :: listing[i] != listing[j] && listing[i] != BackupOf(listing[j])
  }

  lemma {:induction false} NotItsBackup(p: Path)
    ensures BackupOf(p) != p
  {
    if p.BackupOf? { NotItsBackup(p.path); }
  }

  lemma RestoredBefore(files: Files, base: Files, listing: seq<Path>, i: nat)
    requires i < |listing| && FilesFirst(listing) && RestoredUpTo(files, base, listing, i)
    requires listing[i].BackupOf? && listing[i].path in listing
    ensures At(files, listing[i].path) == At(base, listing[i].path)
  {
    var j :| 0 <= j < |listing| && listing[j] == listing[i].path;
    NotItsBackup(listing[i].path);
    assert !(i < j);
  }

  /** The captured links that are missing put back. */
  function WithLinks(files: Files, base: Files, listing: seq<Path>): Files {
    files + map p | p in base && p in listing && p !in files && base[p].Link? :: base[p]
  }

  lemma WithLinksAt(files: Files, base: Files, listing: seq<Path>, p: Path)
    ensures At(WithLinks(files, base, listing), p)
         == if p in base && p in listing && p !in files && base[p].Link? then At(base, p) else At(files, p)
  {
  }

  /** Putting a path back, or removing a link to put it back, is putting it back where no link is missing. */
  lemma RestoredWithLinks(files: Files, base: Files, listing: seq<Path>, p: Path)
    requires p in listing && (p in base ==> !base[p].Directory?)
    ensures var once := RestoreOne(WithLinks(files, base, listing), Snap(base, p));
            && WithLinks(RestoreOne(files, Snap(base, p)), base, listing) == once
            && (p in base && base[p].Link? ==> WithLinks(files - {p}, base, listing) == once)
  {
    hide WithLinks;
    var once := RestoreOne(WithLinks(files, base, listing), Snap(base, p));
    forall q
      ensures At(WithLinks(RestoreOne(files, Snap(base, p)), base, listing), q) == At(once, q)
      ensures p in base && base[p].Link? ==> At(WithLinks(files - {p}, base, listing), q) == At(once, q)
    {
      WithLinksAt(files, base, listing, q);
      WithLinksAt(RestoreOne(files, Snap(base, p)), base, listing, q);
      WithLinksAt(files - {p}, base, listing, q);
    }
    SameAt(WithLinks(RestoreOne(files, Snap(base, p)), base, listing), once);
    if p in base && base[p].Link? { SameAt(WithLinks(files - {p}, base, listing), once); }
  }

  /** Putting the next path back, all of it or only the removal of a link, stays on the way. */
  lemma NextRestoreResumable(
    s: Store, base: Files, listing: seq<Path>, i: nat, k: nat, paths: seq<Path>, cloudInit: bool, interface: string)
    requires i < |listing| && Restorable(base, listing) && FilesFirst(listing) && (forall p <- paths :: p in listing)
    requires Startable(base, paths, cloudInit, interface) && RestoredUpTo(s.files, base, listing, i)
    requires Resumable(WithLinks(s.files, base, listing), base, paths, cloudInit, interface)
    requires k <= |RestoreSteps(Snap(base, listing[i]))|
    ensures var after := Exec(s, RestoreSteps(Snap(base, listing[i])), k, interface);
            Resumable(WithLinks(after.files, base, listing), base, paths, cloudInit, interface)
            && after.connections == s.connections
  {
    hide *;
    var p, linked := listing[i], WithLinks(s.files, base, listing);
    assert p in listing;
    RestorableAt(base, listing, p);
    var steps := RestoreSteps(Snap(base, p));
    SnapShows(base, p, linked);
    RestoredWithLinks(s.files, base, listing, p);
    if p.BackupOf? && p.path in paths {
      RestoredBefore(s.files, base, listing, i);
      WithLinksAt(s.files, base, listing, p.path);
      SameSome(s.files, base, p.path);
    }
    PutBack(RestoreOne(linked, Snap(base, p)), linked, base, p, paths, cloudInit, interface);
    if k < |steps| {
      PartOfRestore(s, base, p, k, interface);
    } else {
      ExecRestoreOne(s, Snap(base, p), interface);
      ExecAllIs(s, steps, interface);
    }
  }

  lemma SameSome(files: Files, base: Files, p: Path)
    ensures At(files, p) == At(base, p) ==> (p in files <==> p in base)
  {
  }

  /** Interrupting the restore of the ifupdown files leaves a state to resume from, missing links aside. */
  lemma {:induction false} RestorePrefixResumable(
    s: Store, base: Files, listing: seq<Path>, i: nat, k: nat, paths: seq<Path>, cloudInit: bool, interface: string)
    requires i <= |listing| && Restorable(base, listing) && FilesFirst(listing) && (forall p <- paths :: p in listing)
    requires Startable(base, paths, cloudInit, interface) && RestoredUpTo(s.files, base, listing, i)
    requires Resumable(WithLinks(s.files, base, listing), base, paths, cloudInit, interface)
    requires k <= |RestoreFiles(SnapsFrom(base, listing, i))|
    ensures var after := Exec(s, RestoreFiles(SnapsFrom(base, listing, i)), k, interface);
            Resumable(WithLinks(after.files, base, listing), base, paths, cloudInit, interface)
            && after.connections == s.connections
    decreases |listing| - i
  {
    hide *;
    if i < |listing| {
      var p := listing[i];
      assert p in listing;
      RestorableAt(base, listing, p);
      var steps := RestoreSteps(Snap(base, p));
      NextRestore(s, base, listing, i, k, interface);
      if k < |steps| {
        NextRestoreResumable(s, base, listing, i, k, paths, cloudInit, interface);
      } else {
        var next := s.(files := RestoreOne(s.files, Snap(base, p)));
        NextRestoreResumable(s, base, listing, i, |steps|, paths, cloudInit, interface);
        ExecRestoreOne(s, Snap(base, p), interface);
        ExecAllIs(s, steps, interface);
        SnapShows(base, p, s.files);
        OneMoreRestored(next.files, s.files, base, listing, i);
        RestorePrefixResumable(next, base, listing, i + 1, k - |steps|, paths, cloudInit, interface);
      }
    } else {
      NothingLeft(s, base, listing, k, interface);
    }
  }

  lemma NothingLeft(s: Store, base: Files, listing: seq<Path>, k: nat, interface: string)
    requires Restorable(base, listing) && k <= |RestoreFiles(SnapsFrom(base, listing, |listing|))|
    ensures Exec(s, RestoreFiles(SnapsFrom(base, listing, |listing|)), k, interface) == s
  {
    assert SnapsFrom(base, listing, |listing|) == [];
  }

  lemma RestorableAt(base: Files, listing: seq<Path>, p: Path)
    requires Restorable(base, listing) && p in listing
    ensures (p in base ==> !base[p].Directory?) && (p in base && base[p].File? ==> '\r' !in base[p].content)
    ensures forall q <- listing | q in base :: !base[q].Directory?
  {
  }

  lemma OneMoreRestored(after: Files, files: Files, base: Files, listing: seq<Path>, i: nat)
    requires i < |listing| && RestoredUpTo(files, base, listing, i)
    requires AgreeOutside(after, files, {listing[i]}) && At(after, listing[i]) == At(base, listing[i])
    ensures RestoredUpTo(after, base, listing, i + 1)
  {
    forall j | 0 <= j < i + 1
      ensures At(after, listing[j]) == At(base, listing[j])
    {
      assert listing[j] == listing[i] || At(after, listing[j]) == At(files, listing[j]);
    }
  }

  // --------------------------------------------------------------- all backends

  /** What a transition writes down before it starts. `listing` and `cloudInit` are read off the host. */
  datatype Job = Job(backend: Backend, settings: Settings, interface: string, connection: string, listing: seq<Path>,
                     cloudInit: bool)

  ghost predicate Capturing(base: Store, job: Job) {
    && Capturable(job.backend, base, job.connection) && IsListing(job.listing, CapturedPaths(job.backend, base.files))
    && (job.backend.NetworkManager? ==> job.listing == [CloudInit])
    && (forall p <- job.listing | p in base.files :: !base.files[p].Directory?)
  }

  /** No file that a persist rewrites has a dangling link for its backup. */
  ghost predicate Contained(base: Store, job: Job) {
    BackupsLead(base.files, Rewritable(job.backend, base.files), job.interface)
  }

  function Log(base: Store, job: Job): Rollback
    requires Capturing(base, job)
  {
    Capture(job.backend, base, job.connection, job.listing)
  }

  function PersistSteps(base: Store, job: Job): seq<Step>
    requires Capturing(base, job)
  {
    PersistProgram(job.backend, job.settings, job.interface, Log(base, job), job.cloudInit)
  }

  function UndoSteps(base: Store, job: Job): seq<Step>
    requires Capturing(base, job)
  {
    RestoreProgram(Log(base, job))
  }

  ghost function JobScope(base: Store, job: Job): Scope {
    ScopeOf(job.backend, base.files, job.connection, job.interface)
  }

  lemma CapturingAnchors(base: Store, job: Job)
    requires Capturing(base, job)
    ensures Connected(base, JobScope(base, job))
    ensures Contained(base, job) ==> Anchored(base, JobScope(base, job))
  {
    hide CapturedPaths, Rewritable, BackupsLead, IsListing;
    RewritableHold(job.backend, base.files);
  }

  /** Differs from the base only where the rollback reaches; for the files, where the base is contained. */
  ghost predicate InReach(s: Store, base: Store, job: Job) {
    && ConnectionsWithin(s, base, JobScope(base, job))
    && (Contained(base, job) ==> FilesWithin(s, base, JobScope(base, job)))
  }

  lemma BaseInReach(base: Store, job: Job)
    requires Capturing(base, job)
    ensures InReach(base, base, job)
  {
    hide CapturedPaths, IsListing, Rewritable, BackupsLead, Sound, Spared;
    CapturingAnchors(base, job);
    if Contained(base, job) { BaseIsWithin(base, JobScope(base, job)); }
  }

  lemma ReachConnections(s: Store, base: Store, job: Job)
    requires InReach(s, base, job)
    ensures ConnectionsWithin(s, base, JobScope(base, job))
  {
    hide FilesWithin, ConnectionsWithin, Contained;
  }

  lemma ReachFiles(s: Store, base: Store, job: Job)
    requires InReach(s, base, job) && Contained(base, job)
    ensures AgreeOutside(s.files, base.files, CapturedPaths(job.backend, base.files))
  {
    hide Sound, ConnectionsWithin, Contained, CapturedPaths, Rewritable;
  }

  /** A program that leaves every state it is interrupted in within reach. */
  ghost predicate Tame(program: seq<Step>, base: Store, job: Job) {
    Confined(program, JobScope(base, job))
  }

  lemma TameStaysInReach(s: Store, base: Store, job: Job, program: seq<Step>, k: nat)
    requires Capturing(base, job) && Tame(program, base, job) && InReach(s, base, job) && k <= |program|
    ensures InReach(Exec(s, program, k, job.interface), base, job)
  {
    hide Capturing, Confined, Anchored, Connected, ConnectionsWithin, FilesWithin, Contained, Exec;
    CapturingAnchors(base, job);
    ConfinedKeepsConnections(s, base, program, k, JobScope(base, job));
    if Contained(base, job) { ConfinedStaysWithin(s, base, program, k, JobScope(base, job)); }
  }

  lemma PersistIsTame(base: Store, job: Job)
    requires Capturing(base, job)
    ensures Tame(PersistSteps(base, job), base, job)
  {
    hide PersistProgram, Confined, CapturedPaths, IsListing, Rewritable;
    PersistConfined(job.backend, base, job.connection, job.listing, job.settings, job.interface, job.cloudInit);
  }

  ghost predicate Restores(step: Step, base: Files, paths: set<Path>, rewritable: set<Path>, interface: string) {
    !step.Modify? && Written(step) <= paths && Faithful(step, base, rewritable, interface)
  }

  lemma OneRestoreTame(base: Files, p: Path, rewritable: set<Path>, interface: string)
    requires p in base ==> !base[p].Directory?
    ensures forall step <- RestoreSteps(Snap(base, p)) :: Restores(step, base, {p}, rewritable, interface)
  {
    hide Spared;
    if p in base && base[p].File? {
      UniversalExact(base[p].content);
      UniversalExact(Universal(base[p].content));
    }
  }

  lemma {:induction false} RestoresTame(
    base: Files, listing: seq<Path>, i: nat, paths: set<Path>, rewritable: set<Path>, interface: string)
    requires i <= |listing| && (forall p <- listing | p in base :: !base[p].Directory?)
    requires forall p <- listing :: p in paths
    ensures forall step <- RestoreFiles(SnapsFrom(base, listing, i)) ::
              Restores(step, base, paths, rewritable, interface)
    decreases |listing| - i
  {
    hide Restores, Snap, RestoreSteps;
    var snaps := SnapsFrom(base, listing, i);
    if i < |listing| {
      assert listing[i] in listing && snaps[0] == Snap(base, listing[i])
        && snaps[1..] == SnapsFrom(base, listing, i + 1);
      OneRestoreTame(base, listing[i], rewritable, interface);
      RestoresTame(base, listing, i + 1, paths, rewritable, interface);
      forall step <- RestoreFiles(snaps)
        ensures Restores(step, base, paths, rewritable, interface)
      {
        if step in RestoreSteps(snaps[0]) { RestoresMore(step, base, listing[i], paths, rewritable, interface); }
      }
    } else {
      assert snaps == [];
    }
  }

  lemma RestoresMore(step: Step, base: Files, p: Path, paths: set<Path>, rewritable: set<Path>, interface: string)
    requires Restores(step, base, {p}, rewritable, interface) && p in paths
    ensures Restores(step, base, paths, rewritable, interface)
  {
  }

  lemma RestoresFit(steps: seq<Step>, base: Store, job: Job)
    requires var scope := JobScope(base, job);
             forall step <- steps :: Restores(step, base.files, scope.paths, scope.rewritable, job.interface)
    ensures Tame(steps, base, job)
  {
    hide Faithful, CapturedPaths, Rewritable;
  }

  lemma UndoIsTame(base: Store, job: Job)
    requires Capturing(base, job)
    ensures Tame(UndoSteps(base, job), base, job)
  {
    hide Snap, RestoreSteps, RestoreFiles, CapturedPaths, Rewritable, Restores, Faithful, Confined;
    var scope, rest := JobScope(base, job), RestoreFiles(SnapsFrom(base.files, job.listing, 0));
    RestoresTame(base.files, job.listing, 0, scope.paths, scope.rewritable, job.interface);
    RestoresFit(rest, base, job);
    if job.backend.NetworkManager? {
      UndoIsModify(base, job);
      var reset := Modify(job.connection, map p <- ROLLBACK_PROPERTIES :: base.connections[job.connection][p]);
      ResetFits(reset, scope);
      ConfinedBoth([reset], rest, scope);
    } else {
      UndoIsRestore(base, job);
    }
  }

  lemma ResetFits(reset: Step, scope: Scope)
    requires reset.Modify? && scope.connection == Some(reset.connection) && reset.changes.Keys <= ROLLBACK_PROPERTIES
    ensures Confined([reset], scope)
  {
  }

  // ------------------------------------------------------------------- resuming

  /** The properties the persist steps set. */
  function Changed(c: Settings): set<Property> {
    (if c.static4.Some? then Changes4(c).Keys else {}) + (if c.static6.Some? then Changes6(c).Keys else {})
      + ChangesDns(c).Keys
  }

  /** Connections that differ only in `free` properties of one of them. */
  ghost predicate AgreeOn(
    a: map<string, map<Property, string>>, base: map<string, map<Property, string>>, connection: string,
    free: set<Property>)
  {
    && a.Keys == base.Keys
    && (forall c <- base | c != connection :: a[c] == base[c])
    && (connection in base ==>
          && a[connection].Keys == base[connection].Keys
          && (forall k <- base[connection] | k !in free :: a[connection][k] == base[connection][k]))
  }

  function CloudPaths(cloudInit: bool): set<Path> { if cloudInit then {CloudInit} else {} }

  /** The files whose stanzas are removed. */
  function StanzaFilesOf(base: Store, job: Job): seq<Path>
    requires Capturing(base, job)
  {
    StanzaPaths(Snaps(base.files, job.listing))
  }

  /**
   No captured link is missing, but for the files that are written anyway. Only a
   restore stopped between removing and recreating a link leaves one missing.
   */
  ghost predicate LinksInPlace(files: Files, base: Store, job: Job) {
    job.backend.IfupdownBackend? ==>
      forall p <- job.listing | p in base.files && base.files[p].Link? && !p.Managed? && !p.CloudInit? :: p in files
  }

  /** What a persist of this job leaves alone when it is interrupted or undone. */
  ghost predicate CanResume(s: Store, base: Store, job: Job)
    requires Capturing(base, job)
  {
    match job.backend
    case NetworkManager =>
      && AgreeOutside(s.files, base.files, CloudPaths(job.cloudInit))
      && AgreeOn(s.connections, base.connections, job.connection, Changed(job.settings))
    case SystemdNetworkd =>
      && AgreeOutside(s.files, base.files, {Networkd} + CloudPaths(job.cloudInit))
      && s.connections == base.connections
    case IfupdownBackend =>
      && Resumable(WithLinks(s.files, base.files, job.listing), base.files, StanzaFilesOf(base, job), job.cloudInit,
                   job.interface)
      && s.connections == base.connections
  }

  /** The text of the main file keeps an include line outside the interface's stanzas, or has none yet. */
  ghost predicate IncludeStays(base: Files, interface: string) {
    var text := ReadText(Resolve(base, At(base, Main)));
    !HasInclude(text) || IncludeOutsideStanzas(text, interface)
  }

  /**
   A base from which an interrupted persist can be picked up: backups and links that lead
   to what is not changed, and an include line that stays.
   */
  ghost predicate Steady(base: Store, job: Job)
    requires Capturing(base, job)
  {
    && (forall p <- job.listing | p in base.files && base.files[p].File? :: '\r' !in base.files[p].content)
    && (!job.cloudInit ==> CloudInit !in base.files)
    && (job.backend.IfupdownBackend? ==>
          && Contained(base, job) && IncludeStays(base.files, job.interface)
          && LinksSafe(base.files, StanzaFilesOf(base, job), job.cloudInit, job.interface))
  }

  lemma SteadyIsContained(base: Store, job: Job)
    requires Capturing(base, job) && Steady(base, job)
    ensures Contained(base, job)
  {
    hide BackupsLead, IncludeStays, LinksSafe;
    if !job.backend.IfupdownBackend? { NothingToLead(base.files, job.interface); }
  }

  lemma NothingToLead(base: Files, interface: string)
    ensures BackupsLead(base, {}, interface)
  {
  }

  /** The include line survives the rewrite exactly when the text had none or has one outside the stanzas. */
  lemma KeepsIncludeExactlyWhen(base: Files, interface: string)
    requires Main in base ==> !base[Main].Directory?
    ensures KeepsInclude(base, At(base, Main), interface) <==> IncludeStays(base, interface)
  {
    hide HasInclude, WithInclude, StripStanzas, IncludeOutsideStanzas, Universal;
    var o := At(base, Main);
    var text := ReadText(Resolve(base, o));
    ConfiguringTwiceExactlyWhen(text, interface);
    RewrittenText(base, o, interface);
  }

  /** Words consist of characters of the text. */
  lemma {:induction false} WordsChars(s: string)
    ensures forall w <- Words(s), c <- w :: c in s
    decreases |s|
  {
    if s != "" {
      var rest := if IsSpace(s[0]) then s[1..] else s[|Word(s)|..];
      if !IsSpace(s[0]) { assert Word(s) != "" && s[..|Word(s)|] == Word(s); }
      WordsChars(rest);
      assert forall c <- rest :: c in s;
    }
  }

  lemma IncludeHasSlash(line: string)
    requires IsInclude(line)
    ensures '/' in line
  {
    WordsChars(line);
    assert INCLUDE_PATTERN[0] == '/' && CONFIG_DIR[0] == '/';
    assert Words(line)[1] in Words(line);
  }

  lemma DefaultLacksInclude()
    ensures !HasInclude(DEFAULT_MAIN)
  {
    hide IsInclude, Words, StripStanzas;
    assert NoSlash(DEFAULT_MAIN);
    forall l <- SplitLines(DEFAULT_MAIN)
      ensures !IsInclude(l)
    {
      JoinedChars(SplitLines(DEFAULT_MAIN), '/');
      if IsInclude(l) { IncludeHasSlash(l); }
    }
  }

  predicate NoSlash(s: string) { '/' !in s }

  lemma RewrittenText(base: Files, o: Option<Node>, interface: string)
    requires o != Some(Directory)
    ensures var n := Rewritten(base, o, true, interface);
            n != Some(Directory) && ReadText(Resolve(base, n)) == Configured(ReadText(Resolve(base, o)), interface)
  {
    hide HasInclude, StripStanzas, IncludeOutsideStanzas, Universal;
    var m := Included(base, o);
    IncludedSettles(base, o, interface);
    IncludedText(base, o, interface);
    if Resolve(base, o).None? { DefaultLacksInclude(); }
    StrippedText(base, m, interface);
  }

  lemma IncludedText(base: Files, o: Option<Node>, interface: string)
    requires o != Some(Directory)
    ensures ReadText(Resolve(base, Included(base, o))) == WithInclude(ReadText(Resolve(base, o)))
    ensures Included(base, o) != Some(Directory)
  {
    hide HasInclude, Universal;
    if NeedsInclude(base, o) {
      var text := ReadText(Resolve(base, o));
      TextIsUnix(Resolve(base, o));
      IncludedIsUnix(text);
      UniversalExact(WithInclude(text));
    }
  }

  lemma StrippedText(base: Files, m: Option<Node>, interface: string)
    requires m != Some(Directory)
    ensures Stripped(base, m, interface) != Some(Directory)
    ensures Resolve(base, m).Some? ==>
              ReadText(Resolve(base, Stripped(base, m, interface)))
                == StripStanzas(ReadText(Resolve(base, m)), interface)
  {
    hide HasInclude, Universal, StripStanzas;
    if NeedsStrip(base, m, interface) {
      var text := ReadText(Resolve(base, m));
      TextIsUnix(Resolve(base, m));
      StrippedIsUnix(text, interface);
      UniversalExact(StripStanzas(text, interface));
    }
  }

  lemma {:induction false} StanzaPathsDistinct(snaps: seq<Snapshot>)
    requires forall i, j | 0 <= i < j < |snaps| :: snaps[i].path != snaps[j].path
    ensures Distinct(StanzaPaths(snaps))
  {
    if snaps != [] {
      var init, p := snaps[..|snaps| - 1], snaps[|snaps| - 1].path;
      StanzaPathsDistinct(init);
      StanzaPathsListed(init);
      assert snaps == init + [snaps[|snaps| - 1]];
      assert p.InDir? ==> p !in StanzaPaths(init);
    }
  }

  lemma StanzaFilesListed(base: Store, job: Job)
    requires Capturing(base, job) && job.backend.IfupdownBackend?
    ensures var paths := StanzaFilesOf(base, job);
            paths != [] && paths[0] == Main && Distinct(paths) && forall p <- paths ::
              p.HoldsStanzas() && p in job.listing
  {
    hide Snap;
    var snaps := Snaps(base.files, job.listing);
    SnapsPaths(base.files, job.listing);
    StanzaPathsDistinct(snaps);
    StanzaPathsListed(snaps);
    forall p <- StanzaPaths(snaps)
      ensures p.HoldsStanzas() && p in job.listing
    {
      if p == Main {
        assert Main in CapturedPaths(IfupdownBackend, base.files);
      } else {
        var x :| x in snaps && x.path == p;
        assert p in PathsOf(snaps);
      }
    }
  }

  lemma SteadyIsStartable(base: Store, job: Job)
    requires Capturing(base, job) && Steady(base, job) && job.backend.IfupdownBackend?
    ensures Startable(base.files, StanzaFilesOf(base, job), job.cloudInit, job.interface)
  {
    hide IncludeStays, KeepsInclude, StanzaPaths, Snaps, CapturedPaths, Rewritable, BackupsLead, LinksSafe;
    StanzaFilesListed(base, job);
    StanzaPathsCaptured(base.files, job.listing);
    assert StanzaFilesOf(base, job)[0] in StanzaFilesOf(base, job);
    KeepsIncludeExactlyWhen(base.files, job.interface);
  }

  lemma Regrouped(a: seq<Step>, m: Step, b: seq<Step>, c: seq<Step>)
    requires |a| == 2
    ensures ([a[0], a[1], m] + b) + c == a + ([m] + (b + c))
  {
  }

  lemma PersistIsIfupdown(base: Store, job: Job)
    requires Capturing(base, job) && job.backend.IfupdownBackend?
    ensures PersistSteps(base, job)
         == IfupdownSteps(StanzaFilesOf(base, job), RenderIfupdown(job.settings, job.interface), job.cloudInit)
  {
    hide RenderIfupdown, StanzaSteps, StanzaPaths, Snaps, CapturedPaths;
    var managed := RenderIfupdown(job.settings, job.interface);
    Regrouped([BackupMain, WriteMain], Write(Managed, managed, 0x1A4), StanzaSteps(StanzaFilesOf(base, job)),
              CloudSteps(job.cloudInit));
  }

  // -------------------------------------------------- constant-writing backends

  /** The program writes `free` paths to constants and changes `changed` properties of one connection. */
  ghost predicate Constant(program: seq<Step>, free: set<Path>, connection: string, changed: set<Property>) {
    forall step <- program ::
      (step.Write? && step.path in free)
        || (step.Modify? && step.connection == connection && step.changes.Keys <= changed)
  }

  ghost predicate Agrees(s: Store, base: Store, free: set<Path>, connection: string, changed: set<Property>) {
    AgreeOutside(s.files, base.files, free) && AgreeOn(s.connections, base.connections, connection, changed)
  }

  lemma ConstantStep(
    s: Store, base: Store, step: Step, free: set<Path>, connection: string, changed: set<Property>, interface: string)
    requires Constant([step], free, connection, changed) && Agrees(s, base, free, connection, changed)
    requires connection in base.connections ==> changed <= base.connections[connection].Keys
    ensures Agrees(Effect(s, step, interface), base, free, connection, changed)
  {
    assert step in [step];
  }

  lemma {:induction false} ConstantPrefix(
    s: Store, base: Store, program: seq<Step>, k: nat, free: set<Path>, connection: string, changed: set<Property>,
      interface: string)
    requires Constant(program, free, connection, changed) && Agrees(s, base, free, connection, changed)
             && k <= |program|
    requires connection in base.connections ==> changed <= base.connections[connection].Keys
    ensures Agrees(Exec(s, program, k, interface), base, free, connection, changed)
  {
    hide Agrees, Effect;
    if k > 0 {
      ConstantPrefix(s, base, program, k - 1, free, connection, changed, interface);
      assert program[k - 1] in program;
      ConstantStep(Exec(s, program, k - 1, interface), base, program[k - 1], free, connection, changed, interface);
    }
  }

  /** What the first `k` steps of a constant program have fixed, whatever the start was. */
  function Fixed(program: seq<Step>, k: nat): set<Path>
    requires k <= |program|
  {
    if k == 0 then {} else Fixed(program, k - 1) + (if program[k - 1].Write? then {program[k - 1].path} else {})
  }

  function FixedProperties(program: seq<Step>, k: nat): set<Property>
    requires k <= |program|
  {
    if k == 0 then {}
      else FixedProperties(program, k - 1) + (if program[k - 1].Modify? then program[k - 1].changes.Keys else {})
  }

  /** Two runs agree on what has been fixed. */
  lemma ConstantPair(
    s: Store, t: Store, step: Step, free: set<Path>, connection: string, changed: set<Property>, all: set<Property>,
      paths: set<Path>, interface: string)
    requires Constant([step], paths, connection, all) && Agrees(s, t, free, connection, changed)
    requires connection in t.connections ==> all <= t.connections[connection].Keys
    ensures Agrees(Effect(s, step, interface), Effect(t, step, interface),
                   free - (if step.Write? then {step.path} else {}), connection,
                   changed - (if step.Modify? then step.changes.Keys else {}))
  {
    assert step in [step];
  }

  lemma {:induction false} ConstantRuns(
    s: Store, t: Store, program: seq<Step>, k: nat, free: set<Path>, connection: string, changed: set<Property>,
      interface: string)
    requires Constant(program, free, connection, changed) && Agrees(s, t, free, connection, changed) && k <= |program|
    requires connection in t.connections ==> changed <= t.connections[connection].Keys
    ensures Agrees(Exec(s, program, k, interface), Exec(t, program, k, interface),
                   free - Fixed(program, k), connection, changed - FixedProperties(program, k))
  {
    hide Effect;
    if k == 0 {
      assert free - {} == free && changed - {} == changed;
    } else {
      hide Agrees;
      ConstantRuns(s, t, program, k - 1, free, connection, changed, interface);
      assert program[k - 1] in program;
      KeysStay(t, program, k - 1, free, connection, changed, interface);
      ConstantPair(Exec(s, program, k - 1, interface), Exec(t, program, k - 1, interface), program[k - 1],
                   free - Fixed(program, k - 1), connection, changed - FixedProperties(program, k - 1), changed, free,
                     interface);
      var w := if program[k - 1].Write? then {program[k - 1].path} else {};
      var m := if program[k - 1].Modify? then program[k - 1].changes.Keys else {};
      assert free - Fixed(program, k) == free - Fixed(program, k - 1) - w;
      assert changed - FixedProperties(program, k) == changed - FixedProperties(program, k - 1) - m;
    }
  }

  lemma KeysStay(
    t: Store, program: seq<Step>, k: nat, free: set<Path>, connection: string, changed: set<Property>,
    interface: string)
    requires Constant(program, free, connection, changed) && k <= |program|
    requires connection in t.connections ==> changed <= t.connections[connection].Keys
    ensures var u := Exec(t, program, k, interface);
            connection in u.connections ==> changed <= u.connections[connection].Keys
  {
    ConstantPrefix(t, t, program, k, free, connection, changed, interface);
  }

  lemma {:induction false} FixedCovers(program: seq<Step>, k: nat, step: Step)
    requires k <= |program| && step in program[..k]
    ensures step.Write? ==> step.path in Fixed(program, k)
    ensures step.Modify? ==> step.changes.Keys <= FixedProperties(program, k)
  {
    assert program[..k] == program[..k - 1] + [program[k - 1]];
    if step in program[..k - 1] { FixedCovers(program, k - 1, step); }
  }

  lemma FixedByAll(program: seq<Step>, step: Step)
    requires step in program
    ensures step.Write? ==> step.path in Fixed(program, |program|)
    ensures step.Modify? ==> step.changes.Keys <= FixedProperties(program, |program|)
  {
    assert program[..|program|] == program;
    FixedCovers(program, |program|, step);
  }

  lemma AgreeEverywhere(s: Store, t: Store, connection: string)
    requires Agrees(s, t, {}, connection, {})
    ensures s == t
  {
    var none: set<Path> := {};
    forall p ensures At(s.files, p) == At(t.files, p) { assert p !in none; }
    SameAt(s.files, t.files);
    if connection in t.connections {
      var a, b := s.connections[connection], t.connections[connection];
      assert forall k <- b :: a[k] == b[k];
      assert a == b;
    }
    assert forall c <- t.connections :: s.connections[c] == t.connections[c];
    assert s.connections == t.connections;
  }

  /** A constant program that fixes everything that differs ends in the same state. */
  lemma ConstantEnds(
    s: Store, t: Store, program: seq<Step>, free: set<Path>, connection: string, changed: set<Property>,
    interface: string)
    requires Constant(program, free, connection, changed) && Agrees(s, t, free, connection, changed)
    requires connection in t.connections ==> changed <= t.connections[connection].Keys
    requires free <= Fixed(program, |program|) && changed <= FixedProperties(program, |program|)
    ensures ExecAll(s, program, interface) == ExecAll(t, program, interface)
  {
    hide Agrees, Constant, Fixed, FixedProperties, Exec;
    ConstantRuns(s, t, program, |program|, free, connection, changed, interface);
    assert free - Fixed(program, |program|) == {} && changed - FixedProperties(program, |program|) == {};
    AgreeEverywhere(Exec(s, program, |program|, interface), Exec(t, program, |program|, interface), connection);
  }

  lemma ChangesAreRollback(c: Settings)
    ensures Changed(c) <= ROLLBACK_PROPERTIES
  {
    hide DnsServers, JoinComma;
  }

  lemma FixedIncludes(program: seq<Step>, connection: string, changes: map<Property, string>)
    requires Modify(connection, changes) in program
    ensures changes.Keys <= FixedProperties(program, |program|)
  {
    FixedByAll(program, Modify(connection, changes));
  }

  lemma NetworkManagerConstant(c: Settings, connection: string, cloudInit: bool)
    ensures var program := NetworkManagerSteps(c, connection) + CloudSteps(cloudInit);
            Constant(program, CloudPaths(cloudInit), connection, Changed(c))
            && CloudPaths(cloudInit) <= Fixed(program, |program|) && Changed(c) <= FixedProperties(program, |program|)
  {
    hide Changes4, Changes6, ChangesDns, FixedProperties, Fixed;
    var program := NetworkManagerSteps(c, connection) + CloudSteps(cloudInit);
    if c.static4.Some? { FixedIncludes(program, connection, Changes4(c)); }
    if c.static6.Some? { FixedIncludes(program, connection, Changes6(c)); }
    if ChangesDns(c) != map[] { FixedIncludes(program, connection, ChangesDns(c)); }
    if cloudInit { FixedByAll(program, Write(CloudInit, CLOUD_INIT_CONTENT, 0x1A4)); }
  }

  /** Each family's properties are set, the name servers of each family too, and no other property changes. */
  lemma NetworkManagerPersists(s: Store, c: Settings, connection: string, interface: string)
    requires connection in s.connections
    ensures var t := ExecAll(s, NetworkManagerSteps(c, connection), interface);
            t.files == s.files && t.connections.Keys == s.connections.Keys
            && (forall k <- s.connections | k != connection :: t.connections[k] == s.connections[k])
            && t.connections[connection]
               == s.connections[connection] + (if c.static4.Some? then Changes4(c) else map[])
                  + (if c.static6.Some? then Changes6(c) else map[]) + ChangesDns(c)
  {
    hide Changes4, Changes6, ChangesDns, Exec;
    var a := if c.static4.Some? then [Modify(connection, Changes4(c))] else [];
    var b := if c.static6.Some? then [Modify(connection, Changes6(c))] else [];
    var d := if ChangesDns(c) != map[] then [Modify(connection, ChangesDns(c))] else [];
    OptionalModify(s, connection, a, if c.static4.Some? then Changes4(c) else map[], interface);
    ExecAllConcat(s, a + b, d, interface);
    ExecAllConcat(s, a, b, interface);
    var s1 := ExecAll(s, a, interface);
    OptionalModify(s1, connection, b, if c.static6.Some? then Changes6(c) else map[], interface);
    OptionalModify(ExecAll(s1, b, interface), connection, d, ChangesDns(c), interface);
  }

  lemma OptionalModify(
    s: Store, connection: string, steps: seq<Step>, changes: map<Property, string>, interface: string)
    requires connection in s.connections
             && (steps == [Modify(connection, changes)] || (steps == [] && changes == map[]))
    ensures ExecAll(s, steps, interface)
            == s.(connections := s.connections[connection := s.connections[connection] + changes])
  {
    if steps == [] {
      assert s.connections[connection] + map[] == s.connections[connection];
      assert s.connections[connection := s.connections[connection]] == s.connections;
    } else {
      ExecOne(s, steps[0], interface);
    }
  }

  lemma NetworkdConstant(content: string, cloudInit: bool, connection: string)
    ensures var program := [Write(Networkd, content, 0x1A4)] + CloudSteps(cloudInit);
            Constant(program, {Networkd} + CloudPaths(cloudInit), connection, {})
            && {Networkd} + CloudPaths(cloudInit) <= Fixed(program, |program|)
  {
    hide FixedProperties, Fixed;
    var program := [Write(Networkd, content, 0x1A4)] + CloudSteps(cloudInit);
    FixedByAll(program, Write(Networkd, content, 0x1A4));
    if cloudInit { FixedByAll(program, Write(CloudInit, CLOUD_INIT_CONTENT, 0x1A4)); }
  }

  lemma AgreeOnSame(a: map<string, map<Property, string>>, connection: string)
    ensures AgreeOn(a, a, connection, {})
  {
  }

  // ---------------------------------------------------------------- main results

  /** The parts of `CanResume` that the constant-writing backends share. */
  lemma AsConstant(s: Store, base: Store, job: Job)
    requires Capturing(base, job) && !job.backend.IfupdownBackend? && CanResume(s, base, job)
    ensures var nm := job.backend.NetworkManager?;
            var free := (if nm then {} else {Networkd}) + CloudPaths(job.cloudInit);
            var changed := if nm then Changed(job.settings) else {};
            Agrees(s, base, free, job.connection, changed)
            && Constant(PersistSteps(base, job), free, job.connection, changed)
            && free <= Fixed(PersistSteps(base, job), |PersistSteps(base, job)|)
            && changed <= FixedProperties(PersistSteps(base, job), |PersistSteps(base, job)|)
            && (job.connection in base.connections ==> changed <= base.connections[job.connection].Keys)
  {
    hide Changed, Fixed, FixedProperties, NetworkManagerSteps, RenderNetworkd, AgreeOn, CloudSteps, Constant;
    ChangesAreRollback(job.settings);
    if job.backend.NetworkManager? {
      NetworkManagerConstant(job.settings, job.connection, job.cloudInit);
      assert {} + CloudPaths(job.cloudInit) == CloudPaths(job.cloudInit);
      assert PersistSteps(base, job) == NetworkManagerSteps(job.settings, job.connection) + CloudSteps(job.cloudInit)
        by { CloudStepsAre(job.cloudInit); }
    } else {
      NetworkdConstant(RenderNetworkd(job.settings, job.interface), job.cloudInit, job.connection);
      AgreeOnSame(base.connections, job.connection);
      assert PersistSteps(base, job) == [Write(Networkd, RenderNetworkd(job.settings, job.interface), 0x1A4)]
        + CloudSteps(job.cloudInit)
        by { CloudStepsAre(job.cloudInit); }
    }
  }

  lemma CloudStepsAre(cloudInit: bool)
    ensures CloudSteps(cloudInit) == if cloudInit then [Write(CloudInit, CLOUD_INIT_CONTENT, 0x1A4)] else []
  {
  }

  /** Interrupting a persist anywhere leaves a state to resume from. */
  lemma PersistKeepsResume(s: Store, base: Store, job: Job, k: nat)
    requires Capturing(base, job) && Steady(base, job) && CanResume(s, base, job) && k <= |PersistSteps(base, job)|
    requires LinksInPlace(s.files, base, job)
    ensures CanResume(Exec(s, PersistSteps(base, job), k, job.interface), base, job)
    ensures LinksInPlace(Exec(s, PersistSteps(base, job), k, job.interface).files, base, job)
  {
    var program := PersistSteps(base, job);
    if job.backend.IfupdownBackend? {
      hide Exec, Steady, Resumable, IfupdownSteps, PersistProgram, Footprint, LinksInPlace, WithLinks;
      SteadyIsStartable(base, job);
      PersistIsIfupdown(base, job);
      InPlaceResumable(s, base, job);
      IfupdownPrefix(s, base.files, k, StanzaFilesOf(base, job), RenderIfupdown(job.settings, job.interface),
                     job.cloudInit, job.interface);
      IfupdownConnections(s, base, job, k);
      LinksStay(s, base, job, k);
      ResumableWithLinks(Exec(s, program, k, job.interface), base, job);
    } else {
      hide Exec, Steady, PersistProgram, Changed, Constant, Fixed, FixedProperties, Log;
      AsConstant(s, base, job);
      var nm := job.backend.NetworkManager?;
      ConstantPrefix(s, base, program, k, (if nm then {} else {Networkd}) + CloudPaths(job.cloudInit), job.connection,
                     if nm then Changed(job.settings) else {}, job.interface);
      AgreeAgain(Exec(s, program, k, job.interface), base, job);
    }
  }

  lemma AgreeAgain(s: Store, base: Store, job: Job)
    requires Capturing(base, job) && !job.backend.IfupdownBackend?
    requires var nm := job.backend.NetworkManager?;
             Agrees(s, base, (if nm then {} else {Networkd}) + CloudPaths(job.cloudInit), job.connection,
                    if nm then Changed(job.settings) else {})
    ensures CanResume(s, base, job)
  {
    hide Changed;
    if job.backend.NetworkManager? {
      assert {} + CloudPaths(job.cloudInit) == CloudPaths(job.cloudInit);
    } else {
      AgreeOnNothing(s.connections, base.connections, job.connection);
    }
  }

  lemma AgreeOnNothing(
    a: map<string, map<Property, string>>, base: map<string, map<Property, string>>, connection: string)
    requires AgreeOn(a, base, connection, {})
    ensures a == base
  {
    AgreeEverywhere(Store(map[], a), Store(map[], base), connection);
  }

  lemma {:induction false} FileStepsKeepConnections(s: Store, program: seq<Step>, k: nat, interface: string)
    requires k <= |program| && forall step <- program :: !step.Modify?
    ensures Exec(s, program, k, interface).connections == s.connections
  {
    hide FileEffect;
    if k > 0 {
      FileStepsKeepConnections(s, program, k - 1, interface);
      assert program[k - 1] in program;
    }
  }

  lemma IfupdownConnections(s: Store, base: Store, job: Job, k: nat)
    requires Capturing(base, job) && job.backend.IfupdownBackend? && k <= |PersistSteps(base, job)|
    ensures Exec(s, PersistSteps(base, job), k, job.interface).connections == s.connections
  {
    hide Exec, PersistProgram, CapturedPaths;
    PersistIsTame(base, job);
    FileStepsKeepConnections(s, PersistSteps(base, job), k, job.interface);
  }

  /** A program that removes nothing keeps every path. */
  lemma {:induction false} NothingRemoved(s: Store, program: seq<Step>, k: nat, interface: string)
    requires k <= |program| && forall step <- program :: !step.Unlink?
    ensures s.files.Keys <= Exec(s, program, k, interface).files.Keys
  {
    hide NewMain, NewStanzas, Followed;
    if k > 0 {
      NothingRemoved(s, program, k - 1, interface);
      assert program[k - 1] in program;
    }
  }

  /** A step of a persist: it removes and links nothing, and writes constants only to files of its own. */
  predicate Persists(step: Step) {
    !step.Unlink? && !step.Symlink? && (step.Write? ==> step.path in {Networkd, Managed, CloudInit})
  }

  lemma PersistOnlyPersists(base: Store, job: Job)
    requires Capturing(base, job)
    ensures forall step <- PersistSteps(base, job) :: Persists(step)
  {
    hide NetworkManagerSteps, RenderNetworkd, RenderIfupdown, StanzaPaths, Rewrites, CapturedPaths, IsListing;
    match job.backend {
      case NetworkManager => ManagerStepsModify(job.settings, job.connection);
      case SystemdNetworkd =>
      case IfupdownBackend =>
        StanzaStepsRewrite(StanzaFilesOf(base, job));
        RewritesPersist(StanzaFilesOf(base, job));
    }
  }

  lemma RewritesPersist(paths: seq<Path>)
    requires forall step <- StanzaSteps(paths) :: Rewrites(step, paths)
    ensures forall step <- StanzaSteps(paths) :: Persists(step)
  {
  }

  lemma ManagerStepsModify(c: Settings, connection: string)
    ensures forall step <- NetworkManagerSteps(c, connection) :: step.Modify?
  {
  }

  lemma LinksStay(s: Store, base: Store, job: Job, k: nat)
    requires Capturing(base, job) && LinksInPlace(s.files, base, job) && k <= |PersistSteps(base, job)|
    ensures LinksInPlace(Exec(s, PersistSteps(base, job), k, job.interface).files, base, job)
  {
    hide Capturing, PersistSteps, Exec;
    PersistOnlyPersists(base, job);
    NothingRemoved(s, PersistSteps(base, job), k, job.interface);
  }

  /** Removing or putting back a link that no pair and no target needs. */
  lemma BesidePairs(
    after: Files, files: Files, base: Files, q: Path, paths: seq<Path>, cloudInit: bool, interface: string)
    requires Startable(base, paths, cloudInit, interface) && Resumable(files, base, paths, cloudInit, interface)
    requires (q.Managed? || (q.CloudInit? && cloudInit)) && AgreeOutside(after, files, {q})
    requires q in base && base[q].Link? && (q in after ==> after[q] == base[q])
    ensures Resumable(after, base, paths, cloudInit, interface)
  {
    hide OnTheWay, KeepsInclude, Sound, BackupsLead;
    forall p <- paths
      ensures PairOnTheWay(after, base, p, interface)
    {
      assert p.HoldsStanzas() && PairOnTheWay(files, base, p, interface);
      SamePair(after, files, base, p, interface);
    }
    LinkKeepsSound(after, files, base, q, AsSet(paths), interface);
    forall p <- paths | p in base && base[p].Link?
      ensures At(after, base[p].target) == At(base, base[p].target)
    {
      WrittenIsAltered(base, q, paths, cloudInit, interface);
      assert At(files, base[p].target) == At(base, base[p].target);
    }
  }

  lemma LinkKeepsSound(after: Files, files: Files, base: Files, q: Path, rewritable: set<Path>, interface: string)
    requires Sound(files, base, rewritable, interface) && BackupsLead(base, rewritable, interface)
    requires AgreeOutside(after, files, {q})
    requires q in base && base[q].Link? && (q in after ==> after[q] == base[q])
    ensures Sound(after, base, rewritable, interface)
  {
    hide Spared;
    forall p <- rewritable | Spared(base, p, interface) ensures SameText(after, base, p) {
      assert SameText(files, base, p) && At(after, p) == At(files, p);
    }
    forall r <- after | after[r].Link? ensures r in base && base[r] == after[r] {
      assert r == q || At(after, r) == At(files, r);
    }
    forall p <- rewritable | !Spared(base, p, interface) && BackupOf(p) in base && base[BackupOf(p)].Link?
      ensures var t := base[BackupOf(p)].target; t in after && !after[t].Link?
    {
      var t := base[BackupOf(p)].target;
      assert !Dangles(base, BackupOf(p)) && t != q && At(after, t) == At(files, t);
    }
  }

  /** Without the missing link `q`. */
  function Dropping(files: Files, s: Files, q: Path): Files {
    if q in s then files else files - {q}
  }

  lemma DropResumable(
    files: Files, s: Files, base: Files, q: Path, paths: seq<Path>, cloudInit: bool, interface: string)
    requires Startable(base, paths, cloudInit, interface) && Resumable(files, base, paths, cloudInit, interface)
    requires q.Managed? || q.CloudInit?
    requires q in files && q !in s ==> q in base && base[q].Link? && (q.CloudInit? ==> cloudInit)
    ensures Resumable(Dropping(files, s, q), base, paths, cloudInit, interface)
  {
    hide Resumable, Startable;
    if q !in s && q in files {
      BesidePairs(files - {q}, files, base, q, paths, cloudInit, interface);
    } else {
      assert Dropping(files, s, q) == files;
    }
  }

  lemma InPlaceDrops(s: Store, base: Store, job: Job)
    requires Capturing(base, job) && job.backend.IfupdownBackend? && LinksInPlace(s.files, base, job)
    ensures var linked := WithLinks(s.files, base.files, job.listing);
            && s.files == Dropping(Dropping(linked, s.files, Managed), s.files, CloudInit)
            && (forall q <- linked | q !in s.files ::
                q in base.files && base.files[q].Link? && linked[q] == base.files[q])
  {
    hide Capturable, IsListing, WithLinks;
    var linked := WithLinks(s.files, base.files, job.listing);
    var dropped := Dropping(Dropping(linked, s.files, Managed), s.files, CloudInit);
    forall q
      ensures At(s.files, q) == At(dropped, q)
      ensures q in linked && q !in s.files ==> q in base.files && base.files[q].Link? && linked[q] == base.files[q]
    {
      WithLinksAt(s.files, base.files, job.listing, q);
    }
    SameAt(s.files, dropped);
  }

  /** With all links in place there is nothing to put back. */
  lemma InPlaceResumable(s: Store, base: Store, job: Job)
    requires Capturing(base, job) && Steady(base, job) && job.backend.IfupdownBackend?
             && LinksInPlace(s.files, base, job)
    requires CanResume(s, base, job)
    ensures Resumable(s.files, base.files, StanzaFilesOf(base, job), job.cloudInit, job.interface)
  {
    hide Capturing, Startable, Resumable, LinksInPlace, WithLinks, IncludeStays, Footprint, StanzaFilesOf;
    var paths, linked := StanzaFilesOf(base, job), WithLinks(s.files, base.files, job.listing);
    var once := Dropping(linked, s.files, Managed);
    SteadyIsStartable(base, job);
    InPlaceDrops(s, base, job);
    DropResumable(linked, s.files, base.files, Managed, paths, job.cloudInit, job.interface);
    DropResumable(once, s.files, base.files, CloudInit, paths, job.cloudInit, job.interface);
  }

  /** Putting links back keeps a state to resume from. */
  lemma ResumableWithLinks(s: Store, base: Store, job: Job)
    requires Capturing(base, job) && Steady(base, job) && job.backend.IfupdownBackend?
             && LinksInPlace(s.files, base, job)
    requires Resumable(s.files, base.files, StanzaFilesOf(base, job), job.cloudInit, job.interface)
    ensures Resumable(WithLinks(s.files, base.files, job.listing), base.files, StanzaFilesOf(base, job),
                      job.cloudInit, job.interface)
  {
    hide Capturing, Startable, Resumable, LinksInPlace, WithLinks, IncludeStays, Footprint, StanzaFilesOf;
    var paths, linked := StanzaFilesOf(base, job), WithLinks(s.files, base.files, job.listing);
    var once := Dropping(linked, s.files, Managed);
    SteadyIsStartable(base, job);
    InPlaceDrops(s, base, job);
    AddResumable(once, s.files, base.files, CloudInit, paths, job.cloudInit, job.interface);
    AddResumable(linked, s.files, base.files, Managed, paths, job.cloudInit, job.interface);
  }

  lemma AddResumable(files: Files, s: Files, base: Files, q: Path, paths: seq<Path>, cloudInit: bool, interface: string)
    requires Startable(base, paths, cloudInit, interface)
    requires Resumable(Dropping(files, s, q), base, paths, cloudInit, interface)
    requires q.Managed? || q.CloudInit?
    requires q in files && q !in s ==> q in base && base[q].Link? && files[q] == base[q] && (q.CloudInit? ==> cloudInit)
    ensures Resumable(files, base, paths, cloudInit, interface)
  {
    hide Resumable, Startable;
    if q !in s && q in files {
      BesidePairs(files, files - {q}, base, q, paths, cloudInit, interface);
    } else {
      assert Dropping(files, s, q) == files;
    }
  }

  /** Confluence: from wherever interruptions leave it, a complete persist ends where it ends from the base. */
  lemma ResumeEnds(s: Store, base: Store, job: Job)
    requires Capturing(base, job) && Steady(base, job) && CanResume(s, base, job) && LinksInPlace(s.files, base, job)
    ensures ExecAll(s, PersistSteps(base, job), job.interface) == ExecAll(base, PersistSteps(base, job), job.interface)
  {
    if job.backend.IfupdownBackend? {
      hide ExecAll, Exec, Steady, Resumable, IfupdownSteps, PersistProgram, Startable, WithLinks, LinksInPlace;
      SteadyIsStartable(base, job);
      PersistIsIfupdown(base, job);
      InPlaceResumable(s, base, job);
      IfupdownResumes(s, base, StanzaFilesOf(base, job), RenderIfupdown(job.settings, job.interface), job.cloudInit,
                      job.interface);
    } else {
      hide *;
      AsConstant(s, base, job);
      var nm := job.backend.NetworkManager?;
      ConstantEnds(s, base, PersistSteps(base, job), (if nm then {} else {Networkd}) + CloudPaths(job.cloudInit),
                   job.connection,
                   if nm then Changed(job.settings) else {}, job.interface);
    }
  }

  // -------------------------------------------------------------- missing links

  lemma {:induction false} NoNewLinks(s: Store, program: seq<Step>, k: nat, interface: string, p: Path)
    requires k <= |program| && (forall step <- program :: Persists(step)) && p !in s.files
    ensures var after := Exec(s, program, k, interface).files; p in after ==> !after[p].Link?
  {
    hide NewMain, NewStanzas, Followed;
    if k > 0 {
      NoNewLinks(s, program, k - 1, interface, p);
      assert program[k - 1] in program;
      StepMakesNoLink(Exec(s, program, k - 1, interface).files, program[k - 1], interface, p);
    }
  }

  lemma StepMakesNoLink(files: Files, step: Step, interface: string, p: Path)
    requires Persists(step) && (p in files ==> !files[p].Link?)
    ensures var after := FileEffect(files, step, interface); p in after ==> !after[p].Link?
  {
    hide NewMain, NewStanzas, Followed;
    if step.BackupMain? || step.BackupStanzas? {
      FollowedIsFile(files, if step.BackupMain? then Main else step.path);
    }
  }

  lemma StepKeepsMissing(files: Files, base: Files, rewritable: set<Path>, step: Step, interface: string, p: Path)
    requires Sound(files, base, rewritable, interface) && BackupsLead(base, rewritable, interface)
    requires Faithful(step, base, rewritable, interface)
    requires Persists(step) && p.InDir? && p !in files
    ensures p !in FileEffect(files, step, interface)
  {
    hide Sound, BackupsLead, Faithful, StripStanzas, NewMain, Universal;
    StepWrites(files, base, rewritable, step, interface);
    if p in Written(step) {
      assert step.WriteStanzas? && Followed(files, p).None?;
    }
  }

  /** A missing file of the directory is not made again. */
  lemma {:induction false} MissingStays(s: Store, base: Store, job: Job, k: nat, p: Path)
    requires Capturing(base, job) && Contained(base, job) && InReach(s, base, job) && k <= |PersistSteps(base, job)|
    requires p.InDir? && p !in s.files
    ensures p !in Exec(s, PersistSteps(base, job), k, job.interface).files
  {
    hide PersistSteps, Capturing, Sound, BackupsLead, Faithful, FileEffect;
    if k > 0 {
      var program := PersistSteps(base, job);
      var before := Exec(s, program, k - 1, job.interface);
      MissingStays(s, base, job, k - 1, p);
      PersistIsTame(base, job);
      CapturingAnchors(base, job);
      TameStaysInReach(s, base, job, program, k - 1);
      PersistOnlyPersists(base, job);
      assert program[k - 1] in program;
      StepKeepsMissing(before.files, base.files, Rewritable(job.backend, base.files), program[k - 1], job.interface, p);
    }
  }

  /** What a persist makes of a link of the base: in the directory something, at a backup the same link. */
  lemma PersistedLink(base: Store, job: Job, p: Path)
    requires Capturing(base, job) && Steady(base, job) && job.backend.IfupdownBackend?
    requires p in base.files && base.files[p].Link? && p.BackupOf?
    ensures At(ExecAll(base, PersistSteps(base, job), job.interface).files, p) == At(base.files, p)
  {
    hide Steady, Startable, Resumable, Capturing, IfupdownSteps, PersistSteps, ExecAll, StanzaFilesOf, RenderIfupdown,
      Created;
    var paths, managed := StanzaFilesOf(base, job), RenderIfupdown(job.settings, job.interface);
    SteadyIsStartable(base, job);
    PersistIsIfupdown(base, job);
    StartsOnTheWay(base.files, paths, job.cloudInit, job.interface);
    IfupdownRun(base, base.files, paths, managed, job.cloudInit, job.interface);
    StanzaFilesListed(base, job);
    var result := ExecAll(base, PersistSteps(base, job), job.interface).files;
    assert Persisted(result, base.files, paths, managed, job.cloudInit, job.interface);
    if p.path in paths {
      assert PairPersisted(result, base.files, p.path, job.interface);
    } else {
      assert p !in Footprint(paths, job.cloudInit);
    }
  }

  /** A captured link that is missing when a persist starts is lost. */
  lemma MissingLinkIsLost(s: Store, base: Store, job: Job, p: Path)
    requires Capturing(base, job) && Steady(base, job) && job.backend.IfupdownBackend? && InReach(s, base, job)
    requires p in base.files && base.files[p].Link? && p !in s.files && (p.InDir? || p.BackupOf?)
    ensures At(ExecAll(s, PersistSteps(base, job), job.interface).files, p)
         != At(ExecAll(base, PersistSteps(base, job), job.interface).files, p)
  {
    hide Capturing, Steady, PersistSteps, InReach, Exec, Contained;
    var program := PersistSteps(base, job);
    PersistOnlyPersists(base, job);
    SteadyIsContained(base, job);
    if p.InDir? {
      MissingStays(s, base, job, |program|, p);
      NothingRemoved(base, program, |program|, job.interface);
    } else {
      NoNewLinks(s, program, |program|, job.interface, p);
      PersistedLink(base, job, p);
    }
  }

  lemma CapturedLinkKind(base: Store, job: Job, p: Path)
    requires Capturing(base, job) && job.backend.IfupdownBackend? && p in job.listing
    ensures p.Main? || p.Managed? || p.CloudInit? || p.InDir? || p.BackupOf?
  {
    assert p in CapturedPaths(IfupdownBackend, base.files);
  }

  // ------------------------------------------------------- one file's turn in a persist

  /** A path that no step names keeps its node. */
  lemma {:induction false} UnwrittenStays(
    s: Store, base: Store, program: seq<Step>, k: nat, scope: Scope, q: Path)
    requires k <= |program| && Confined(program, scope) && Anchored(base, scope) && Within(s, base, scope)
    requires forall step <- program :: q !in Written(step)
    ensures At(Exec(s, program, k, scope.interface).files, q) == At(s.files, q)
  {
    hide Anchored, Confined, Within, Exec, FileEffect;
    if k == 0 {
      NoSteps(s, program, scope.interface);
    } else {
      UnwrittenStays(s, base, program, k - 1, scope, q);
      ConfinedStaysWithin(s, base, program, k - 1, scope);
      var before := Exec(s, program, k - 1, scope.interface);
      assert program[k - 1] in program;
      UnwrittenByStep(before, base, program, program[k - 1], scope, q);
      NextFiles(s, program, k - 1, scope.interface);
    }
  }

  lemma UnwrittenByStep(s: Store, base: Store, program: seq<Step>, step: Step, scope: Scope, q: Path)
    requires Confined(program, scope) && step in program && Anchored(base, scope) && Within(s, base, scope)
    requires q !in Written(step)
    ensures At(FileEffect(s.files, step, scope.interface), q) == At(s.files, q)
  {
    hide Sound, BackupsLead, Faithful, FileEffect;
    StepWrites(s.files, base.files, scope.rewritable, step, scope.interface);
  }

  lemma {:induction false} StanzaStepsConcat(a: seq<Path>, b: seq<Path>)
    ensures StanzaSteps(a + b) == StanzaSteps(a) + StanzaSteps(b)
  {
    if a == [] {
      assert a + b == b;
    } else {
      assert (a + b)[1..] == a[1..] + b;
      StanzaStepsConcat(a[1..], b);
    }
  }

  /** The steps before the turn of file `n`, and behind it. */
  function BeforeTurn(paths: seq<Path>, managed: string, n: nat): seq<Step>
    requires n <= |paths|
  {
    [BackupMain, WriteMain, Write(Managed, managed, 0x1A4)] + StanzaSteps(paths[..n])
  }

  function BehindTurn(paths: seq<Path>, cloudInit: bool, n: nat): seq<Step>
    requires n < |paths|
  {
    StanzaSteps(paths[n + 1..]) + CloudSteps(cloudInit)
  }

  function TheTurn(p: Path): seq<Step> { [BackupStanzas(p), WriteStanzas(p)] }

  lemma TurnSplits(paths: seq<Path>, managed: string, cloudInit: bool, n: nat)
    requires n < |paths|
    ensures IfupdownSteps(paths, managed, cloudInit)
         == BeforeTurn(paths, managed, n) + (TheTurn(paths[n]) + BehindTurn(paths, cloudInit, n))
  {
    hide StanzaSteps;
    assert paths == paths[..n] + paths[n..] && paths[n..][0] == paths[n] && paths[n..][1..] == paths[n + 1..];
    StanzaStepsConcat(paths[..n], paths[n..]);
    FirstTodo(paths[n..]);
    assert [BackupMain, WriteMain] + [Write(Managed, managed, 0x1A4)]
      == [BackupMain, WriteMain, Write(Managed, managed, 0x1A4)];
  }

  /** Stanza steps of other files spare a file and its backup. */
  lemma RewritesSpare(paths: seq<Path>, p: Path)
    requires p !in paths && p.HoldsStanzas() && forall q <- paths :: q.HoldsStanzas()
    ensures forall step <- StanzaSteps(paths) :: p !in Written(step) && BackupOf(p) !in Written(step)
  {
    hide StanzaSteps;
    StanzaStepsRewrite(paths);
  }

  lemma BehindSpares(paths: seq<Path>, cloudInit: bool, n: nat)
    requires n < |paths| && Distinct(paths) && forall p <- paths :: p.HoldsStanzas()
    ensures forall step <- BehindTurn(paths, cloudInit, n) ::
              paths[n] !in Written(step) && BackupOf(paths[n]) !in Written(step)
  {
    hide StanzaSteps, Written;
    assert paths[n] in paths && forall q <- paths[n + 1..] :: q in paths;
    RewritesSpare(paths[n + 1..], paths[n]);
    CloudSpares(paths[n], cloudInit);
  }

  lemma CloudSpares(p: Path, cloudInit: bool)
    requires p.HoldsStanzas()
    ensures forall step <- CloudSteps(cloudInit) :: p !in Written(step) && BackupOf(p) !in Written(step)
  {
  }

  lemma BeforeSpares(paths: seq<Path>, managed: string, n: nat, m: nat)
    requires 0 < n <= m < |paths| && Distinct(paths) && (forall p <- paths :: p.HoldsStanzas()) && paths[0] == Main
    ensures forall step <- BeforeTurn(paths, managed, n) :: paths[m] !in Written(step)
  {
    hide StanzaSteps, Written;
    assert paths[m] in paths && forall q <- paths[..n] :: q in paths;
    assert paths[m] !in paths[..n] && paths[m] != Main;
    RewritesSpare(paths[..n], paths[m]);
    FirstSpare(paths[m], managed);
  }

  lemma FirstSpare(p: Path, managed: string)
    requires p.InDir?
    ensures forall step <- [BackupMain, WriteMain, Write(Managed, managed, 0x1A4)] :: p !in Written(step)
  {
  }

  lemma ConfinedParts(a: seq<Step>, b: seq<Step>, scope: Scope)
    requires Confined(a + b, scope)
    ensures Confined(a, scope) && Confined(b, scope)
  {
    hide Fits;
    assert forall step <- a :: step in a + b;
    assert forall step <- b :: step in a + b;
  }

  /** The state when the turn of file `n` comes. */
  ghost function AtTurn(s: Store, base: Store, job: Job, n: nat): Store
    requires Capturing(base, job) && n <= |StanzaFilesOf(base, job)|
  {
    ExecAll(s, BeforeTurn(StanzaFilesOf(base, job), RenderIfupdown(job.settings, job.interface), n), job.interface)
  }

  function Turned(files: Files, p: Path, interface: string): Files {
    FileEffect(FileEffect(files, BackupStanzas(p), interface), WriteStanzas(p), interface)
  }

  /** A file's turn decides what a persist makes of it and of its backup; before it the file is as it was. */
  lemma TurnDecides(s: Store, base: Store, job: Job, n: nat)
    requires Capturing(base, job) && Contained(base, job) && job.backend.IfupdownBackend? && InReach(s, base, job)
    requires n < |StanzaFilesOf(base, job)|
    ensures var paths, mid := StanzaFilesOf(base, job), AtTurn(s, base, job, n);
            var done := Turned(mid.files, paths[n], job.interface);
            var result := ExecAll(s, PersistSteps(base, job), job.interface).files;
            && Within(mid, base, JobScope(base, job))
            && At(result, paths[n]) == At(done, paths[n])
            && At(result, BackupOf(paths[n])) == At(done, BackupOf(paths[n]))
            && (forall m | 0 < n <= m < |paths| :: At(mid.files, paths[m]) == At(s.files, paths[m]))
  {
    hide *;
    var paths, managed := StanzaFilesOf(base, job), RenderIfupdown(job.settings, job.interface);
    var scope, p, before := JobScope(base, job), paths[n], BeforeTurn(paths, managed, n);
    var turn, behind := TheTurn(p), BehindTurn(paths, job.cloudInit, n);
    StanzaFilesListed(base, job);
    PersistIsIfupdown(base, job);
    TurnSplits(paths, managed, job.cloudInit, n);
    TameParts(base, job, before, turn, behind);
    CapturingAnchors(base, job);
    ReachParts(s, base, job);
    ScopeInterface(base, job);
    var mid := ExecAll(s, before, job.interface);
    assert mid == AtTurn(s, base, job, n) by { AtTurnIs(s, base, job, n); }
    ExecAllIs(s, before, job.interface);
    ConfinedStaysWithin(s, base, before, |before|, scope);
    var done := ExecAll(mid, turn, job.interface);
    ExecAllIs(mid, turn, job.interface);
    TurnLength(p);
    ConfinedStaysWithin(mid, base, turn, 2, scope);
    ExecTwo(mid, BackupStanzas(p), WriteStanzas(p), job.interface);
    TurnedIs(mid.files, p, job.interface);
    ExecAllConcat(s, before, turn + behind, job.interface);
    ExecAllConcat(mid, turn, behind, job.interface);
    ExecAllIs(done, behind, job.interface);
    BehindSpares(paths, job.cloudInit, n);
    UnwrittenStays(done, base, behind, |behind|, scope, p);
    UnwrittenStays(done, base, behind, |behind|, scope, BackupOf(p));
    forall m | 0 < n <= m < |paths|
      ensures At(mid.files, paths[m]) == At(s.files, paths[m])
    {
      BeforeSpares(paths, managed, n, m);
      UnwrittenStays(s, base, before, |before|, scope, paths[m]);
    }
  }

  lemma TameParts(base: Store, job: Job, before: seq<Step>, turn: seq<Step>, behind: seq<Step>)
    requires Capturing(base, job) && PersistSteps(base, job) == before + (turn + behind)
    ensures Confined(before, JobScope(base, job)) && Confined(turn, JobScope(base, job))
    ensures Confined(behind, JobScope(base, job))
  {
    hide Confined, Capturing, PersistSteps;
    PersistIsTame(base, job);
    ConfinedParts(before, turn + behind, JobScope(base, job));
    ConfinedParts(turn, behind, JobScope(base, job));
  }

  lemma ReachParts(s: Store, base: Store, job: Job)
    requires Contained(base, job) && InReach(s, base, job)
    ensures Within(s, base, JobScope(base, job))
  {
    hide FilesWithin, ConnectionsWithin, Contained;
  }

  lemma ScopeInterface(base: Store, job: Job)
    ensures JobScope(base, job).interface == job.interface && JobScope(base, job).base == base.files
    ensures JobScope(base, job).rewritable == Rewritable(job.backend, base.files)
  {
  }

  lemma AtTurnIs(s: Store, base: Store, job: Job, n: nat)
    requires Capturing(base, job) && n <= |StanzaFilesOf(base, job)|
    ensures var before := BeforeTurn(StanzaFilesOf(base, job), RenderIfupdown(job.settings, job.interface), n);
            AtTurn(s, base, job, n) == ExecAll(s, before, job.interface)
  {
  }

  lemma TurnLength(p: Path)
    ensures |TheTurn(p)| == 2 && TheTurn(p) == [BackupStanzas(p), WriteStanzas(p)]
  {
  }

  lemma TurnedIs(files: Files, p: Path, interface: string)
    ensures Turned(files, p, interface)
         == FileEffect(FileEffect(files, BackupStanzas(p), interface), WriteStanzas(p), interface)
  {
  }

  /** What a turn makes of a file: the text that is read, without its stanzas, or nothing new. */
  lemma TurnMakes(files: Files, base: Files, rewritable: set<Path>, p: Path, interface: string)
    requires Sound(files, base, rewritable, interface) && p in rewritable
    ensures var done, updated, f := Turned(files, p, interface), NewStanzas(files, p, interface), Followed(files, p);
            && At(done, p) == (if updated.Some? then Some(File(updated.value, ModeOf(f))) else At(files, p))
            && At(done, BackupOf(p)) == (if updated.Some? && BackupOf(p) !in files then f else At(files, BackupOf(p)))
  {
    hide Universal, StripStanzas, Sound, Spared, CopyBackup;
    var updated := NewStanzas(files, p, interface);
    if updated.Some? {
      if Spared(base, p, interface) {
        SoundSpares(files, base, rewritable, p, interface);
        SparedStays(files, base, p, interface);
      } else {
        SoundCopies(files, base, rewritable, interface, p);
        CopyKeepsReading(files, p);
      }
      var copied := CopyBackup(files, p);
      SameReading(copied, files, p, interface);
      StanzaEffects(files, p, interface, updated);
      StanzaEffects(copied, p, interface, updated);
      NotItsBackup(p);
    } else {
      StanzaEffects(files, p, interface, None);
    }
  }

  lemma SameReading(a: Files, b: Files, p: Path, interface: string)
    requires Followed(a, p) == Followed(b, p)
    ensures NewStanzas(a, p, interface) == NewStanzas(b, p, interface)
  {
  }

  lemma SoundSpares(files: Files, base: Files, rewritable: set<Path>, p: Path, interface: string)
    requires Sound(files, base, rewritable, interface) && p in rewritable && Spared(base, p, interface)
    ensures SameText(files, base, p)
  {
    hide Spared, SameText;
  }

  lemma CopyKeepsReading(files: Files, p: Path)
    requires CopyBackup(files, p) == if Followed(files, p).None? || BackupOf(p) in files then files
                                     else files[BackupOf(p) := Followed(files, p).value]
    ensures Followed(CopyBackup(files, p), p) == Followed(files, p)
    ensures At(CopyBackup(files, p), p) == At(files, p)
  {
    hide CopyBackup;
    NotItsBackup(p);
  }

  lemma StanzaFileRewritable(base: Store, job: Job, n: nat)
    requires Capturing(base, job) && job.backend.IfupdownBackend? && n < |StanzaFilesOf(base, job)|
    ensures StanzaFilesOf(base, job)[n] in Rewritable(job.backend, base.files)
  {
    hide Snaps, CapturedPaths, StanzaPaths, Rewritable;
    StanzaPathsCaptured(base.files, job.listing);
    assert StanzaFilesOf(base, job)[n] in StanzaFilesOf(base, job);
  }

  // ------------------------------------------------------------ a missing main file

  /** The text that a persist writes to a missing main file. */
  function FreshMain(): Node { File(WithInclude(DEFAULT_MAIN), 0x1A4) }

  lemma FreshMainIncluded(base: Files, interface: string)
    ensures NeedsInclude(base, None) && Included(base, None) == Some(FreshMain())
    ensures Resolve(base, Some(FreshMain())) == Some(FreshMain())
  {
    hide HasInclude, WithInclude, Universal;
    DefaultLacksInclude();
  }

  /** The main file is missing: it is made afresh, and nothing is copied before. */
  lemma FreshMainBegins(s: Store, managed: string, interface: string)
    requires Main !in s.files
    ensures ExecAll(s, BeforeTurn([Main], managed, 0), interface).files
         == s.files[Main := FreshMain()][Managed := File(managed, 0x1A4)]
  {
    hide HasInclude, WithInclude, StripStanzas, Universal;
    DefaultLacksInclude();
    var head := [BackupMain, WriteMain];
    ExecTwo(s, BackupMain, WriteMain, interface);
    assert FileEffect(s.files, BackupMain, interface) == s.files;
    assert FileEffect(s.files, WriteMain, interface) == s.files[Main := FreshMain()];
    assert BeforeTurn([Main], managed, 0) == head + [Write(Managed, managed, 0x1A4)];
    ExecAllConcat(s, head, [Write(Managed, managed, 0x1A4)], interface);
    ExecOne(ExecAll(s, head, interface), Write(Managed, managed, 0x1A4), interface);
  }

  lemma NoTurnsBefore(paths: seq<Path>, managed: string)
    requires paths != []
    ensures BeforeTurn(paths, managed, 0) == BeforeTurn([Main], managed, 0)
  {
    assert paths[..0] == [Main][..0];
  }

  /** Wherever the main file is missing, a persist makes of it and its backup what it makes of a host without one. */
  lemma MissingMainMakes(s: Store, base: Store, job: Job)
    requires Capturing(base, job) && Contained(base, job) && job.backend.IfupdownBackend? && InReach(s, base, job)
    requires Main !in s.files
    ensures var result := ExecAll(s, PersistSteps(base, job), job.interface).files;
            && At(result, Main) == Rewritten(base.files, None, true, job.interface)
            && At(result, BackupOf(Main))
               == BackedUp(base.files, None, At(s.files, BackupOf(Main)), true, job.interface)
  {
    hide *;
    var managed := RenderIfupdown(job.settings, job.interface);
    var mid := AtTurn(s, base, job, 0);
    StanzaFilesListed(base, job);
    TurnDecides(s, base, job, 0);
    AtTurnIs(s, base, job, 0);
    NoTurnsBefore(StanzaFilesOf(base, job), managed);
    FreshMainBegins(s, managed, job.interface);
    StanzaFileRewritable(base, job, 0);
    WithinIsSound(mid, base, job);
    TurnMakes(mid.files, base.files, Rewritable(job.backend, base.files), Main, job.interface);
    FreshMainMakes(mid.files, s.files, base.files, managed, job.interface);
  }

  lemma WithinIsSound(s: Store, base: Store, job: Job)
    requires Within(s, base, JobScope(base, job))
    ensures Sound(s.files, base.files, Rewritable(job.backend, base.files), job.interface)
  {
    hide Sound, ConnectionsWithin, Rewritable;
  }

  lemma FreshMainMakes(files: Files, start: Files, base: Files, managed: string, interface: string)
    requires files == start[Main := FreshMain()][Managed := File(managed, 0x1A4)]
    ensures var updated, f := NewStanzas(files, Main, interface), Followed(files, Main);
            && (if updated.Some? then Some(File(updated.value, ModeOf(f))) else At(files, Main))
               == Rewritten(base, None, true, interface)
            && (if updated.Some? && BackupOf(Main) !in files then f else At(files, BackupOf(Main)))
               == BackedUp(base, None, At(start, BackupOf(Main)), true, interface)
  {
    hide StripStanzas, HasInclude, WithInclude, Universal, FreshMain;
    FreshMainIncluded(base, interface);
    assert FreshMain().File? by { FreshMainIsFile(); }
    assert At(files, BackupOf(Main)) == At(start, BackupOf(Main));
  }

  lemma FreshMainIsFile()
    ensures FreshMain().File?
  {
  }

  /** Persisting makes the same of a missing main file as of the link that it was. */
  ghost predicate MainLossless(files: Files, base: Files, interface: string) {
    var y := At(files, BackupOf(Main));
    && Rewritten(base, None, true, interface) == Rewritten(base, At(base, Main), true, interface)
    && BackedUp(base, None, y, true, interface) == BackedUp(base, At(base, Main), y, true, interface)
  }

  /** What a persist from the base makes of the main file, its backup being on the way. */
  lemma MainFromBase(s: Store, base: Store, job: Job)
    requires Capturing(base, job) && Steady(base, job) && job.backend.IfupdownBackend? && CanResume(s, base, job)
    requires BackupOf(Main) in base.files && base.files[BackupOf(Main)].Link? ==> BackupOf(Main) in s.files
    ensures var result := ExecAll(base, PersistSteps(base, job), job.interface).files;
            var o := At(base.files, Main);
            && At(result, Main) == Rewritten(base.files, o, true, job.interface)
            && At(result, BackupOf(Main)) == BackedUp(base.files, o, At(s.files, BackupOf(Main)), true, job.interface)
  {
    hide *;
    var paths, managed := StanzaFilesOf(base, job), RenderIfupdown(job.settings, job.interface);
    SteadyIsStartable(base, job);
    PersistIsIfupdown(base, job);
    StartsOnTheWay(base.files, paths, job.cloudInit, job.interface);
    IfupdownRun(base, base.files, paths, managed, job.cloudInit, job.interface);
    StanzaFilesListed(base, job);
    MainPersists(ExecAll(base, PersistSteps(base, job), job.interface).files, base.files, paths, managed, job.cloudInit,
                 job.interface);
    LinkedMain(s, base, job);
  }

  lemma MainPersists(
    result: Files, base: Files, paths: seq<Path>, managed: string, cloudInit: bool, interface: string)
    requires Persisted(result, base, paths, managed, cloudInit, interface) && paths != [] && paths[0] == Main
    ensures var o, b := At(base, Main), At(base, BackupOf(Main));
            At(result, Main) == Rewritten(base, o, true, interface)
            && At(result, BackupOf(Main)) == BackedUp(base, o, b, true, interface)
  {
    hide Rewritten, BackedUp, Footprint;
    assert paths[0] in paths && PairPersisted(result, base, Main, interface);
  }

  lemma LinkedMain(s: Store, base: Store, job: Job)
    requires Capturing(base, job) && job.backend.IfupdownBackend? && CanResume(s, base, job)
    requires BackupOf(Main) in base.files && base.files[BackupOf(Main)].Link? ==> BackupOf(Main) in s.files
    ensures var o, b, y := At(base.files, Main), At(base.files, BackupOf(Main)), At(s.files, BackupOf(Main));
            BackedUp(base.files, o, y, true, job.interface) == BackedUp(base.files, o, b, true, job.interface)
  {
    hide Rewritten, BackedUp, WithLinks, Snaps, CapturedPaths, Sound, Footprint;
    StanzaFilesListed(base, job);
    var linked := WithLinks(s.files, base.files, job.listing);
    assert StanzaFilesOf(base, job)[0] in StanzaFilesOf(base, job);
    assert PairOnTheWay(linked, base.files, Main, job.interface);
    OpenPair(linked, base.files, Main, job.interface);
    WithLinksAt(s.files, base.files, job.listing, BackupOf(Main));
  }

  /** A main file that is missing and not made the same is lost. */
  lemma MissingMainIsLost(s: Store, base: Store, job: Job)
    requires Capturing(base, job) && Steady(base, job) && job.backend.IfupdownBackend?
    requires InReach(s, base, job) && CanResume(s, base, job) && Main !in s.files
    requires BackupOf(Main) in base.files && base.files[BackupOf(Main)].Link? ==> BackupOf(Main) in s.files
    requires !MainLossless(s.files, base.files, job.interface)
    ensures ExecAll(s, PersistSteps(base, job), job.interface) != ExecAll(base, PersistSteps(base, job), job.interface)
  {
    hide Capturing, CanResume, InReach, ExecAll, PersistSteps, Rewritten, BackedUp, Contained, IncludeStays,
      LinksSafe;
    MissingMainMakes(s, base, job);
    MainFromBase(s, base, job);
  }

  /** No captured link is missing, but for files written anyway, and a main file that is made the same without it. */
  ghost predicate Recoverable(files: Files, base: Store, job: Job) {
    job.backend.IfupdownBackend? ==>
      forall p <- job.listing |
        p in base.files && base.files[p].Link? && !p.Managed? && !p.CloudInit? && p !in files ::
        p.Main? && MainLossless(files, base.files, job.interface)
  }

  /** Without a main file that is made the same, a state stays on the way. */
  lemma DropMain(files: Files, base: Files, paths: seq<Path>, cloudInit: bool, interface: string)
    requires Startable(base, paths, cloudInit, interface) && Resumable(files, base, paths, cloudInit, interface)
    requires Main in base && base[Main].Link? && At(files, Main) == At(base, Main)
    requires MainLossless(files, base, interface)
    ensures Resumable(files - {Main}, base, paths, cloudInit, interface)
  {
    hide Rewritten, BackedUp, KeepsInclude, Sound, BackupsLead, NeedsInclude, NeedsStrip;
    var after := files - {Main};
    assert paths[0] in paths && PairOnTheWay(files, base, Main, interface);
    OpenPair(files, base, Main, interface);
    forall p <- paths
      ensures PairOnTheWay(after, base, p, interface)
    {
      assert p.HoldsStanzas() && PairOnTheWay(files, base, p, interface);
      if p.Main? {
        assert At(after, Main) == None && At(after, BackupOf(Main)) == At(files, BackupOf(Main));
      } else {
        SamePair(after, files, base, p, interface);
      }
    }
    LinkKeepsSound(after, files, base, Main, AsSet(paths), interface);
    forall p <- paths | p in base && base[p].Link?
      ensures At(after, base[p].target) == At(base, base[p].target)
    {
      MainIsAltered(base, paths, interface);
      assert At(files, base[p].target) == At(base, base[p].target);
    }
  }

  lemma MainIsAltered(base: Files, paths: seq<Path>, interface: string)
    requires Rewritten(base, None, true, interface) == Rewritten(base, At(base, Main), true, interface)
    requires Main in base && base[Main].Link?
    ensures !Unaltered(base, Main, paths, interface)
  {
    hide HasInclude, StripStanzas, Universal, WithInclude, FreshMain;
    FreshMainIncluded(base, interface);
    FreshMainIsFile();
  }

  /** Where every missing link is recoverable, a persist ends where it ends from the base. */
  lemma RecoverableEnds(s: Store, base: Store, job: Job)
    requires Capturing(base, job) && Steady(base, job) && CanResume(s, base, job)
    requires Recoverable(s.files, base, job)
    ensures ExecAll(s, PersistSteps(base, job), job.interface) == ExecAll(base, PersistSteps(base, job), job.interface)
  {
    hide Capturing, ExecAll, PersistSteps, CanResume, MainLossless, Contained, IncludeStays, LinksSafe;
    if !job.backend.IfupdownBackend? || Main in s.files || (Main in base.files ==> !base.files[Main].Link?) {
      ResumeEnds(s, base, job);
    } else {
      RecoverableMainEnds(s, base, job);
    }
  }

  lemma RecoverableMainEnds(s: Store, base: Store, job: Job)
    requires Capturing(base, job) && Steady(base, job) && CanResume(s, base, job)
    requires job.backend.IfupdownBackend? && Recoverable(s.files, base, job)
    requires Main !in s.files && Main in base.files && base.files[Main].Link?
    ensures ExecAll(s, PersistSteps(base, job), job.interface) == ExecAll(base, PersistSteps(base, job), job.interface)
  {
    hide *;
    var paths := StanzaFilesOf(base, job);
    var with := s.(files := s.files[Main := base.files[Main]]);
    SteadyIsStartable(base, job);
    PersistIsIfupdown(base, job);
    StanzaFilesListed(base, job);
    MainIsListed(base, job);
    WithMain(s, base, job);
    InPlaceResumable(with, base, job);
    MainRecoverable(s, base, job);
    SameBackup(s.files, with.files, base.files, job.interface);
    DropMain(with.files, base.files, paths, job.cloudInit, job.interface);
    assert with.files - {Main} == s.files;
    SameConnections(s, base, job);
    IfupdownResumes(s, base, paths, RenderIfupdown(job.settings, job.interface), job.cloudInit, job.interface);
  }

  lemma MainIsListed(base: Store, job: Job)
    requires Capturing(base, job) && job.backend.IfupdownBackend?
    ensures Main in job.listing
  {
    assert Main in CapturedPaths(IfupdownBackend, base.files);
  }

  lemma MainRecoverable(s: Store, base: Store, job: Job)
    requires Recoverable(s.files, base, job) && job.backend.IfupdownBackend? && Main in job.listing
    requires Main !in s.files && Main in base.files && base.files[Main].Link?
    ensures MainLossless(s.files, base.files, job.interface)
  {
    hide MainLossless;
  }

  lemma SameBackup(a: Files, b: Files, base: Files, interface: string)
    requires At(a, BackupOf(Main)) == At(b, BackupOf(Main)) && MainLossless(a, base, interface)
    ensures MainLossless(b, base, interface) && At(b, Main) == At(b, Main)
  {
    hide Rewritten, BackedUp;
  }

  /** With the main file's link put back nothing else is missing. */
  lemma WithMain(s: Store, base: Store, job: Job)
    requires Capturing(base, job) && CanResume(s, base, job) && job.backend.IfupdownBackend? && Main in job.listing
    requires Recoverable(s.files, base, job) && Main !in s.files && Main in base.files && base.files[Main].Link?
    ensures var with := s.(files := s.files[Main := base.files[Main]]);
            && LinksInPlace(with.files, base, job) && CanResume(with, base, job)
            && At(with.files, Main) == At(base.files, Main)
            && At(s.files, BackupOf(Main)) == At(with.files, BackupOf(Main))
            && with.files - {Main} == s.files
  {
    hide MainLossless, Resumable, Capturable, IsListing;
    var with := s.files[Main := base.files[Main]];
    var a, b := WithLinks(s.files, base.files, job.listing), WithLinks(with, base.files, job.listing);
    forall q ensures At(a, q) == At(b, q) {
      WithLinksAt(s.files, base.files, job.listing, q);
      WithLinksAt(with, base.files, job.listing, q);
    }
    SameAt(a, b);
    assert with - {Main} == s.files;
  }

  lemma SameConnections(s: Store, base: Store, job: Job)
    requires Capturing(base, job) && CanResume(s, base, job) && job.backend.IfupdownBackend?
    ensures s.connections == base.connections
  {
    hide Resumable;
  }

  /**
   From wherever interruptions leave it, a complete persist ends where it ends from the
   base exactly when no captured link is missing whose loss makes a difference.
   */
  lemma ResumeEndsExactlyWhen(s: Store, base: Store, job: Job)
    requires Capturing(base, job) && Steady(base, job) && CanResume(s, base, job) && InReach(s, base, job)
    ensures ExecAll(s, PersistSteps(base, job), job.interface) == ExecAll(base, PersistSteps(base, job), job.interface)
       <==> Recoverable(s.files, base, job)
  {
    hide Capturing, Steady, CanResume, InReach, ExecAll, PersistSteps, MainLossless;
    if Recoverable(s.files, base, job) {
      RecoverableEnds(s, base, job);
    } else {
      var p :| p in job.listing && p in base.files && base.files[p].Link? && !p.Managed? && !p.CloudInit?
        && p !in s.files && !(p.Main? && MainLossless(s.files, base.files, job.interface));
      CapturedLinkKind(base, job, p);
      var b := BackupOf(Main);
      if b in base.files && base.files[b].Link? && b !in s.files {
        MissingLinkIsLost(s, base, job, b);
      } else if p.Main? {
        MissingMainIsLost(s, base, job);
      } else {
        MissingLinkIsLost(s, base, job, p);
      }
    }
  }

  // -------------------------------------------------- links to what is to be changed

  /** A link to a later file that holds no stanza is left alone; one to a file that does is replaced. */
  lemma LinkTurn(s: Store, base: Store, job: Job, n: nat, m: nat)
    requires Capturing(base, job) && Contained(base, job) && job.backend.IfupdownBackend? && InReach(s, base, job)
    requires 0 < n < m < |StanzaFilesOf(base, job)|
    requires var a, b := StanzaFilesOf(base, job)[n], StanzaFilesOf(base, job)[m];
             At(s.files, a) == Some(Link(b)) && b in s.files && s.files[b].File?
    ensures var a, b := StanzaFilesOf(base, job)[n], StanzaFilesOf(base, job)[m];
            var x := At(ExecAll(s, PersistSteps(base, job), job.interface).files, a);
            if NeedsStrip(base.files, At(s.files, b), job.interface) then x.Some? && x.value.File?
            else x == Some(Link(b))
  {
    hide *;
    var a, b, mid := StanzaFilesOf(base, job)[n], StanzaFilesOf(base, job)[m], AtTurn(s, base, job, n);
    TurnDecides(s, base, job, n);
    StanzaFileRewritable(base, job, n);
    WithinIsSound(mid, base, job);
    TurnMakes(mid.files, base.files, Rewritable(job.backend, base.files), a, job.interface);
    AtSome(mid.files, s.files, a);
    AtSome(mid.files, s.files, b);
    LinkReads(mid.files, base.files, a, b, job.interface);
  }

  lemma AtSome(a: Files, b: Files, p: Path)
    ensures At(a, p) == At(b, p) && p in b ==> p in a && a[p] == b[p]
    ensures At(a, p).Some? <==> p in a
    ensures p in a ==> At(a, p) == Some(a[p])
  {
  }

  lemma LinkReads(files: Files, base: Files, a: Path, b: Path, interface: string)
    requires a in files && files[a] == Link(b) && b in files && files[b].File?
    ensures NewStanzas(files, a, interface).Some? <==> NeedsStrip(base, Some(files[b]), interface)
    ensures NewStanzas(files, b, interface)
         == if NeedsStrip(base, Some(files[b]), interface) then Some(StripStanzas(ReadText(Some(files[b])), interface))
            else None
    ensures Followed(files, b) == Some(files[b])
  {
    hide StripStanzas, Universal;
  }

  /** A file of the directory loses its stanzas in its turn. */
  lemma FileTurn(s: Store, base: Store, job: Job, m: nat)
    requires Capturing(base, job) && Contained(base, job) && job.backend.IfupdownBackend? && InReach(s, base, job)
    requires 0 < m < |StanzaFilesOf(base, job)|
    requires var b := StanzaFilesOf(base, job)[m]; b in s.files && s.files[b].File?
    ensures var b, result := StanzaFilesOf(base, job)[m], ExecAll(s, PersistSteps(base, job), job.interface).files;
            At(result, b) == Stripped(base.files, At(s.files, b), job.interface)
  {
    hide *;
    var b, mid := StanzaFilesOf(base, job)[m], AtTurn(s, base, job, m);
    TurnDecides(s, base, job, m);
    StanzaFileRewritable(base, job, m);
    WithinIsSound(mid, base, job);
    TurnMakes(mid.files, base.files, Rewritable(job.backend, base.files), b, job.interface);
    AtSome(mid.files, s.files, b);
    AtSome(s.files, s.files, b);
    FileReads(mid.files, base.files, b, job.interface);
  }

  lemma FileReads(files: Files, base: Files, b: Path, interface: string)
    requires b in files && files[b].File?
    ensures var updated, f := NewStanzas(files, b, interface), Followed(files, b);
            Stripped(base, At(files, b), interface)
            == if updated.Some? then Some(File(updated.value, ModeOf(f))) else At(files, b)
  {
    hide StripStanzas, Universal;
  }

  lemma BaseCanResume(base: Store, job: Job)
    requires Capturing(base, job) && Steady(base, job)
    ensures CanResume(base, base, job) && InReach(base, base, job)
  {
    hide Steady, Resumable, CapturedPaths, Changed, IsListing, InReach, WithLinks;
    BaseInReach(base, job);
    if job.backend.IfupdownBackend? {
      SteadyIsStartable(base, job);
      StartsOnTheWay(base.files, StanzaFilesOf(base, job), job.cloudInit, job.interface);
      assert WithLinks(base.files, base.files, job.listing) == base.files by { NoLinkMissing(base.files, job.listing); }
    }
  }

  lemma NoLinkMissing(base: Files, listing: seq<Path>)
    ensures WithLinks(base, base, listing) == base
  {
  }

  lemma SteadyRestorable(base: Store, job: Job)
    requires Capturing(base, job) && Steady(base, job)
    ensures Restorable(base.files, job.listing)
    ensures job.backend.IfupdownBackend? ==> FilesFirst(job.listing)
    ensures job.backend.SystemdNetworkd? ==>
            NoLinksOutside(base.files, job.listing, {Networkd} + CloudPaths(job.cloudInit))
    ensures job.backend.NetworkManager? ==> NoLinksOutside(base.files, job.listing, CloudPaths(job.cloudInit))
  {
    hide IncludeStays, StanzaFilesOf, Footprint;
    forall p <- job.listing | p in base.files && base.files[p].Link?
      ensures match job.backend
              case IfupdownBackend => true
              case SystemdNetworkd => p in {Networkd} + CloudPaths(job.cloudInit)
              case NetworkManager => p in CloudPaths(job.cloudInit)
    {
      assert p in CapturedPaths(job.backend, base.files);
    }
  }

  lemma UndoIsRestore(base: Store, job: Job)
    requires Capturing(base, job) && !job.backend.NetworkManager?
    ensures UndoSteps(base, job) == RestoreFiles(SnapsFrom(base.files, job.listing, 0))
  {
    hide Snap;
    assert SnapsFrom(base.files, job.listing, 0) == Snaps(base.files, job.listing);
  }

  /** The NetworkManager undo: all properties, then the one file. */
  lemma UndoIsModify(base: Store, job: Job)
    requires Capturing(base, job) && job.backend.NetworkManager?
    ensures UndoSteps(base, job)
         == [Modify(job.connection, map p <- ROLLBACK_PROPERTIES :: base.connections[job.connection][p])]
            + RestoreFiles(SnapsFrom(base.files, job.listing, 0))
  {
    hide Snap, RestoreSteps;
    var snap := Snap(base.files, CloudInit);
    assert SnapsFrom(base.files, job.listing, 0) == [snap];
    assert RestoreFiles([snap][1..]) == [];
    assert RestoreFiles([snap]) == RestoreSteps(snap);
    var values := Log(base, job).values;
    assert (map p <- values :: JoinComma(values[p])) == map p <- ROLLBACK_PROPERTIES ::
      base.connections[job.connection][p];
  }

  lemma WithinRollback(
    a: map<string, map<Property, string>>, base: map<string, map<Property, string>>, connection: string,
    free: set<Property>)
    requires AgreeOn(a, base, connection, free) && free <= ROLLBACK_PROPERTIES
    ensures ConnectionsAgree(a, base, connection)
  {
  }

  lemma UndoPrefixOfProperties(s: Store, base: Store, job: Job, k: nat)
    requires Capturing(base, job) && Steady(base, job) && job.backend.NetworkManager? && CanResume(s, base, job)
    requires 0 < k <= |UndoSteps(base, job)|
    ensures var after := Exec(s, UndoSteps(base, job), k, job.interface);
            AgreeOutside(after.files, base.files, CloudPaths(job.cloudInit)) && after.connections == base.connections
  {
    hide Exec, Effect, Steady, UndoSteps, RestoreFiles, SnapsFrom, CapturedPaths, Changed, AgreeOn, ConnectionsAgree;
    var reset := Modify(job.connection, map p <- ROLLBACK_PROPERTIES :: base.connections[job.connection][p]);
    var rest := RestoreFiles(SnapsFrom(base.files, job.listing, 0));
    UndoIsModify(base, job);
    ExecHead(s, reset, rest, k, job.interface);
    ChangesAreRollback(job.settings);
    WithinRollback(s.connections, base.connections, job.connection, Changed(job.settings));
    ModifyRestores(s, base, job.connection, reset.changes);
    ResetEffect(s, base, reset, job.interface);
    SteadyRestorable(base, job);
    RestoreKeepsAgreement(Effect(s, reset, job.interface), base.files, job.listing, 0, k - 1, CloudPaths(job.cloudInit),
                          job.interface);
  }

  lemma ResetEffect(s: Store, base: Store, reset: Step, interface: string)
    requires reset.Modify? && reset.connection in s.connections
    requires s.connections[reset.connection := s.connections[reset.connection] + reset.changes] == base.connections
    ensures Effect(s, reset, interface) == Store(s.files, base.connections)
  {
  }

  /** Interrupting a restore anywhere leaves a state to resume from. */
  lemma UndoKeepsResume(s: Store, base: Store, job: Job, k: nat)
    requires Capturing(base, job) && Steady(base, job) && CanResume(s, base, job) && k <= |UndoSteps(base, job)|
    ensures CanResume(Exec(s, UndoSteps(base, job), k, job.interface), base, job)
  {
    hide Exec, Steady, Resumable, RestoreFiles, SnapsFrom, CapturedPaths, Changed, UndoSteps, Startable, IsListing,
      WithLinks;
    if k == 0 {
      NoSteps(s, UndoSteps(base, job), job.interface);
    } else if job.backend.NetworkManager? {
      UndoPrefixOfProperties(s, base, job, k);
    } else {
      UndoIsRestore(base, job);
      SteadyRestorable(base, job);
      if job.backend.SystemdNetworkd? {
        RestoreKeepsAgreement(s, base.files, job.listing, 0, k, {Networkd} + CloudPaths(job.cloudInit), job.interface);
      } else {
        SteadyIsStartable(base, job);
        StanzaFilesListed(base, job);
        RestorePrefixResumable(s, base.files, job.listing, 0, k, StanzaFilesOf(base, job), job.cloudInit,
                               job.interface);
      }
    }
  }

  lemma NoSteps(s: Store, program: seq<Step>, interface: string)
    ensures Exec(s, program, 0, interface) == s
  {
  }

  /** The base as a complete restore brings it back. */
  ghost function Restored(base: Store, job: Job): Store {
    base.(files := NormalOn(base.files, CapturedPaths(job.backend, base.files)))
  }

  /**
   A complete restore puts everything within its reach back, line breaks of captured files
   aside; it ends at the base exactly when these have no carriage return and no other file differs.
   */
  lemma UndoEnds(s: Store, base: Store, job: Job)
    requires Capturing(base, job) && ConnectionsWithin(s, base, JobScope(base, job))
    ensures var t, captured := ExecAll(s, UndoSteps(base, job), job.interface), CapturedPaths(job.backend, base.files);
            && (AgreeOutside(s.files, base.files, captured) ==> t == Restored(base, job))
            && (t == base <==> NoCarriageReturns(base.files, captured) && AgreeOutside(s.files, base.files, captured))
  {
    hide ExecAll, RestoreProgram, Capture, IsListing, NormalOn, CapturedPaths, AgreeOutside;
    var captured := CapturedPaths(job.backend, base.files);
    NormalExactlyWhen(base.files, captured);
    if AgreeOutside(s.files, base.files, captured) {
      RestoreUndoes(s, base, job.backend, job.connection, job.listing, job.interface);
    } else {
      UndoSparesOthers(s, base, job);
      AgreeBack(ExecAll(s, UndoSteps(base, job), job.interface).files, s.files, captured);
    }
  }

  lemma AgreeBack(a: Files, b: Files, paths: set<Path>)
    requires AgreeOutside(a, b, paths)
    ensures AgreeOutside(b, a, paths)
  {
  }

  /** A restore touches captured paths only. */
  lemma UndoSparesOthers(s: Store, base: Store, job: Job)
    requires Capturing(base, job)
    ensures AgreeOutside(ExecAll(s, UndoSteps(base, job), job.interface).files, s.files,
                         CapturedPaths(job.backend, base.files))
  {
    hide Capturable, IsListing, Confined, CapturedPaths, RestoreProgram, ScopeOf, Exec;
    var undo := UndoSteps(base, job);
    UndoIsTame(base, job);
    UndoLeaksNothing(base, job);
    LeaklessPrefix(s, undo, |undo|, job.interface, CapturedPaths(job.backend, base.files));
  }

  lemma UndoLeaksNothing(base: Store, job: Job)
    requires Capturing(base, job)
    ensures forall step <- UndoSteps(base, job) ::
              Written(step) <= CapturedPaths(job.backend, base.files) && !step.BackupMain? && !step.BackupStanzas?
  {
    hide *;
    UndoIsTame(base, job);
    TameWrites(UndoSteps(base, job), base, job);
    CapturingLists(base, job);
    RestoreStepsOnly(base.files, job.listing, 0);
    if job.backend.NetworkManager? { UndoIsModify(base, job); } else { UndoIsRestore(base, job); }
  }

  lemma CapturingLists(base: Store, job: Job)
    requires Capturing(base, job)
    ensures forall p <- job.listing | p in base.files :: !base.files[p].Directory?
  {
  }

  lemma TameWrites(program: seq<Step>, base: Store, job: Job)
    requires Tame(program, base, job)
    ensures forall step <- program :: Written(step) <= CapturedPaths(job.backend, base.files)
  {
    hide CapturedPaths, Faithful;
  }

  lemma {:induction false} RestoreStepsOnly(base: Files, listing: seq<Path>, i: nat)
    requires i <= |listing| && (forall p <- listing | p in base :: !base[p].Directory?)
    ensures forall step <- RestoreFiles(SnapsFrom(base, listing, i)) :: !step.BackupMain? && !step.BackupStanzas?
    decreases |listing| - i
  {
    var snaps := SnapsFrom(base, listing, i);
    if i < |listing| {
      assert snaps[1..] == SnapsFrom(base, listing, i + 1);
      RestoreStepsOnly(base, listing, i + 1);
    }
  }

  lemma SteadyHasNoCarriageReturns(base: Store, job: Job)
    requires Capturing(base, job) && Steady(base, job)
    ensures NoCarriageReturns(base.files, CapturedPaths(job.backend, base.files))
  {
    hide IncludeStays, StanzaFilesOf, Footprint;
    forall p <- base.files | p in CapturedPaths(job.backend, base.files) && base.files[p].File?
      ensures '\r' !in base.files[p].content
    {
      assert p in job.listing;
    }
  }
}
