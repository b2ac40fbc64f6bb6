/**
 The captured rollback covers everything the persist steps can write, so
 restoring it undoes any part of them.
 */
module NetworkRestore {
  import opened Wrappers
  import opened Ifupdown
  import opened NetworkStore

  /** Files that agree except on `paths`. */
  ghost predicate AgreeOutside(files: Files, base: Files, paths: set<Path>) {
    forall p | p !in paths :: (p in files <==> p in base) && (p in base ==> files[p] == base[p])
  }

  // ----------------------------------------------------------- copying a backup

  /** A symbolic link whose target is not there. */
  predicate Dangles(files: Files, p: Path) {
    p in files && files[p].Link? && !Exists(files, p)
  }

  /** Copying the backup of `p` now creates a file elsewhere. */
  predicate Escapes(files: Files, p: Path) {
    Followed(files, p).Some? && Dangles(files, BackupOf(p)) && files[BackupOf(p)].target != BackupOf(p)
  }

  /** Copying writes the backup and nothing else exactly when the backup is not a dangling link. */
  lemma CopyConfinedExactlyWhen(files: Files, p: Path)
    ensures AgreeOutside(CopyBackup(files, p), files, {BackupOf(p)}) <==> !Escapes(files, p)
  {
    if Escapes(files, p) {
      var t := files[BackupOf(p)].target;
      assert t !in {BackupOf(p)} && CopyBackup(files, p)[t].File?;
    }
  }

  /** The one path a step names to write, if any. */
  function Written(step: Step): set<Path> {
    match step
    case Modify(_, _) => {}
    case Write(p, _, _) => {p}
    case Unlink(p) => {p}
    case Symlink(p, _) => {p}
    case BackupMain => {BackupOf(Main)}
    case WriteMain => {Main}
    case BackupStanzas(p) => {BackupOf(p)}
    case WriteStanzas(p) => {p}
  }

  /** The step copies through a dangling link that leads out of `paths`. */
  predicate Leaks(files: Files, step: Step, interface: string, paths: set<Path>) {
    match step
    case BackupMain => NewMain(files).Some? && Escapes(files, Main) && files[BackupOf(Main)].target !in paths
    case BackupStanzas(p) =>
      NewStanzas(files, p, interface).Some? && Escapes(files, p) && files[BackupOf(p)].target !in paths
    case _ => false
  }

  lemma StepConfinedExactlyWhen(files: Files, step: Step, interface: string, paths: set<Path>)
    requires Written(step) <= paths
    ensures AgreeOutside(FileEffect(files, step, interface), files, paths) <==> !Leaks(files, step, interface, paths)
  {
    hide NewMain, NewStanzas, Followed;
    if Leaks(files, step, interface, paths) {
      var p := if step.BackupMain? then Main else step.path;
      var t := files[BackupOf(p)].target;
      FollowedIsFile(files, p);
      assert t !in paths && FileEffect(files, step, interface)[t].File?;
    }
  }

  lemma FollowedIsFile(files: Files, p: Path)
    ensures Followed(files, p).Some? ==> Followed(files, p).value.File?
  {
  }

  /** No prefix of a program changes a file outside `paths` exactly when none of its steps leaks. */
  lemma ProgramConfinedExactlyWhen(s: Store, program: seq<Step>, interface: string, paths: set<Path>)
    requires forall step <- program :: Written(step) <= paths
    ensures (forall k | 0 <= k <= |program| :: AgreeOutside(Exec(s, program, k, interface).files, s.files, paths))
       <==> (forall k | 0 <= k < |program| ::
             !Leaks(Exec(s, program, k, interface).files, program[k], interface, paths))
  {
    hide Leaks, FileEffect, Exec;
    if forall k | 0 <= k < |program| :: !Leaks(Exec(s, program, k, interface).files, program[k], interface, paths) {
      forall k | 0 <= k <= |program|
        ensures AgreeOutside(Exec(s, program, k, interface).files, s.files, paths)
      {
        LeaklessPrefix(s, program, k, interface, paths);
      }
    }
    if k :| 0 <= k < |program| && Leaks(Exec(s, program, k, interface).files, program[k], interface, paths) {
      assert program[k] in program;
      NextFiles(s, program, k, interface);
      var before, after := Exec(s, program, k, interface).files, Exec(s, program, k + 1, interface).files;
      if AgreeOutside(before, s.files, paths) && AgreeOutside(after, s.files, paths) {
        StepConfinedExactlyWhen(before, program[k], interface, paths);
        assert false;
      }
    }
  }

  lemma NextFiles(s: Store, program: seq<Step>, k: nat, interface: string)
    requires k < |program|
    ensures Exec(s, program, k + 1, interface).files
            == FileEffect(Exec(s, program, k, interface).files, program[k], interface)
  {
  }

  lemma {:induction false} LeaklessPrefix(s: Store, program: seq<Step>, k: nat, interface: string, paths: set<Path>)
    requires (forall step <- program :: Written(step) <= paths) && k <= |program|
    requires forall i | 0 <= i < |program| :: !Leaks(Exec(s, program, i, interface).files, program[i], interface, paths)
    ensures AgreeOutside(Exec(s, program, k, interface).files, s.files, paths)
  {
    hide Leaks, FileEffect, Exec;
    if k == 0 {
      assert Exec(s, program, 0, interface) == s by { ExecStart(s, program, interface); }
    } else {
      LeaklessPrefix(s, program, k - 1, interface, paths);
      NextFiles(s, program, k - 1, interface);
      assert program[k - 1] in program;
      StepConfinedExactlyWhen(Exec(s, program, k - 1, interface).files, program[k - 1], interface, paths);
    }
  }

  lemma ExecStart(s: Store, program: seq<Step>, interface: string)
    ensures Exec(s, program, 0, interface) == s
  {
  }

  // ---------------------------------------------------------- confined programs

  /** The files the persist steps look at, to copy and rewrite them where needed. */
  ghost function Rewritable(backend: Backend, base: Files): set<Path> {
    if backend.IfupdownBackend? then {Main} + set p <- base | p.InDir? && !base[p].Directory? else {}
  }

  lemma RewritableHold(backend: Backend, base: Files)
    ensures forall p <- Rewritable(backend, base) :: p.HoldsStanzas()
  {
  }

  /** The file is to be rewritten. */
  predicate Due(files: Files, p: Path, interface: string) {
    (p.Main? && NewMain(files).Some?) || NewStanzas(files, p, interface).Some?
  }

  /** A plain file that needs no rewriting. */
  predicate Spared(base: Files, p: Path, interface: string) {
    p in base && base[p].File? && !Due(base, p, interface)
  }

  /** No backup of these files is a dangling link, unless the file needs no rewriting. */
  ghost predicate BackupsLead(base: Files, rewritable: set<Path>, interface: string) {
    forall p <- rewritable | !Spared(base, p, interface) :: !Dangles(base, BackupOf(p))
  }

  /** What a rollback covers of a base: paths, among them the files rewritten, and perhaps a connection's properties. */
  datatype Scope = Scope(
    base: Files, paths: set<Path>, rewritable: set<Path>, connection: Option<string>, interface: string)

  ghost function ScopeOf(backend: Backend, base: Files, connection: string, interface: string): Scope {
    Scope(base, CapturedPaths(backend, base), Rewritable(backend, base),
          if backend.NetworkManager? then Some(connection) else None, interface)
  }

  predicate SameText(files: Files, base: Files, p: Path) {
    && p in files && p in base && files[p].File? && base[p].File?
    && Universal(files[p].content) == Universal(base[p].content)
  }

  /**
   All links are links of the base. Files that need no rewriting keep their text, and
   what links at the backups of the others lead to is there.
   */
  ghost predicate Sound(files: Files, base: Files, rewritable: set<Path>, interface: string) {
    && (forall q <- files | files[q].Link? :: q in base && base[q] == files[q])
    && (forall p <- rewritable :: p.HoldsStanzas())
    && (forall p <- rewritable | Spared(base, p, interface) :: SameText(files, base, p))
    && (forall p <- rewritable | !Spared(base, p, interface) && BackupOf(p) in base && base[BackupOf(p)].Link? ::
          var t := base[BackupOf(p)].target; t in files && !files[t].Link?)
  }

  /** What is written to a file that needs no rewriting. */
  ghost predicate WritesText(base: Files, p: Path, content: string, rewritable: set<Path>, interface: string) {
    p in rewritable && Spared(base, p, interface) ==> Universal(content) == Universal(base[p].content)
  }

  /** The step copies only rewritable files, and makes or removes a link only where the base has it. */
  ghost predicate Faithful(step: Step, base: Files, rewritable: set<Path>, interface: string) {
    match step
    case Unlink(p) => p in base ==> base[p].Link?
    case Symlink(p, t) => p in base && base[p] == Link(t)
    case BackupMain => Main in rewritable
    case BackupStanzas(p) => p in rewritable
    case Write(p, content, _) => WritesText(base, p, content, rewritable, interface)
    case _ => true
  }

  lemma SoundAtBase(base: Files, rewritable: set<Path>, interface: string)
    requires forall p <- rewritable :: p.HoldsStanzas()
    ensures Sound(base, base, rewritable, interface) <==> BackupsLead(base, rewritable, interface)
  {
    hide NewMain, NewStanzas;
  }

  lemma SparedStays(files: Files, base: Files, p: Path, interface: string)
    requires Spared(base, p, interface) && SameText(files, base, p)
    ensures !Due(files, p, interface)
  {
    hide Universal;
  }

  /** A file put anywhere leaves links and their targets sound. */
  lemma FileKeepsSound(
    files: Files, base: Files, rewritable: set<Path>, interface: string, p: Path, node: Node)
    requires Sound(files, base, rewritable, interface) && node.File?
    requires WritesText(base, p, node.content, rewritable, interface)
    ensures Sound(files[p := node], base, rewritable, interface)
  {
    hide Spared;
    assert forall q <- rewritable | Spared(base, q, interface) :: SameText(files[p := node], base, q) by {
      forall q <- rewritable | Spared(base, q, interface)
        ensures SameText(files[p := node], base, q)
      {
        assert SameText(files, base, q);
      }
    }
  }

  lemma SoundCopies(files: Files, base: Files, rewritable: set<Path>, interface: string, p: Path)
    requires Sound(files, base, rewritable, interface) && p in rewritable && !Spared(base, p, interface)
    ensures !Dangles(files, BackupOf(p))
    ensures CopyBackup(files, p) == if Followed(files, p).None? || BackupOf(p) in files then files
                                    else files[BackupOf(p) := Followed(files, p).value]
    ensures Sound(CopyBackup(files, p), base, rewritable, interface)
  {
    hide Spared;
    FollowedIsFile(files, p);
    if Followed(files, p).Some? {
      assert BackupOf(p) !in rewritable;
      FileKeepsSound(files, base, rewritable, interface, BackupOf(p), Followed(files, p).value);
    }
  }

  lemma LinkStepKeepsSound(files: Files, base: Files, rewritable: set<Path>, interface: string, step: Step)
    requires Sound(files, base, rewritable, interface) && BackupsLead(base, rewritable, interface)
    requires Faithful(step, base, rewritable, interface) && (step.Unlink? || step.Symlink?)
    ensures Sound(FileEffect(files, step, interface), base, rewritable, interface)
  {
    hide NewMain, NewStanzas;
    forall p <- rewritable | !Spared(base, p, interface) && BackupOf(p) in base && base[BackupOf(p)].Link?
      ensures var t := base[BackupOf(p)].target; t != step.path
    {
      assert !Dangles(base, BackupOf(p));
    }
  }

  /** The step writes what it names, and keeps links and spared files sound. */
  lemma StepWrites(files: Files, base: Files, rewritable: set<Path>, step: Step, interface: string)
    requires Sound(files, base, rewritable, interface) && BackupsLead(base, rewritable, interface)
    requires Faithful(step, base, rewritable, interface)
    ensures AgreeOutside(FileEffect(files, step, interface), files, Written(step))
    ensures Sound(FileEffect(files, step, interface), base, rewritable, interface)
  {
    hide NewMain, NewStanzas, Followed, Sound, Dangles, CopyBackup, Spared;
    match step {
      case BackupMain => CopyKeepsSound(files, base, rewritable, interface, Main);
      case BackupStanzas(p) => CopyKeepsSound(files, base, rewritable, interface, p);
      case Unlink(p) => LinkStepKeepsSound(files, base, rewritable, interface, step);
      case Symlink(p, t) => LinkStepKeepsSound(files, base, rewritable, interface, step);
      case WriteMain =>
        if NewMain(files).Some? { RewriteKeepsSound(files, base, rewritable, interface, Main, NewMain(files).value); }
      case WriteStanzas(p) =>
        var updated := NewStanzas(files, p, interface);
        if updated.Some? { RewriteKeepsSound(files, base, rewritable, interface, p, updated.value); }
      case Write(p, content, mode) => FileKeepsSound(files, base, rewritable, interface, p, File(content, mode));
      case Modify(_, _) =>
    }
  }

  /** A copy that is needed goes to the backup. */
  lemma CopyKeepsSound(files: Files, base: Files, rewritable: set<Path>, interface: string, p: Path)
    requires Sound(files, base, rewritable, interface) && p in rewritable
    ensures Due(files, p, interface) ==>
              && Sound(CopyBackup(files, p), base, rewritable, interface)
              && AgreeOutside(CopyBackup(files, p), files, {BackupOf(p)})
  {
    hide Due, CopyBackup, Spared, Followed;
    if Spared(base, p, interface) {
      SparedStays(files, base, p, interface);
    } else {
      SoundCopies(files, base, rewritable, interface, p);
    }
  }

  /** A file that is rewritten is not spared. */
  lemma RewriteKeepsSound(
    files: Files, base: Files, rewritable: set<Path>, interface: string, p: Path, content: string)
    requires Sound(files, base, rewritable, interface) && Due(files, p, interface)
    ensures Sound(Rewrite(files, p, content), base, rewritable, interface)
    ensures AgreeOutside(Rewrite(files, p, content), files, {p})
  {
    hide Due, Spared, Followed, Universal;
    if p in rewritable && Spared(base, p, interface) {
      SparedStays(files, base, p, interface);
    }
    FileKeepsSound(files, base, rewritable, interface, p, Rewrite(files, p, content)[p]);
  }

  /** Connections agree except on the rollback properties of one connection. */
  ghost predicate ConnectionsAgree(
    a: map<string, map<Property, string>>, base: map<string, map<Property, string>>, connection: string)
  {
    && (forall c | c != connection :: (c in a <==> c in base) && (c in base ==> a[c] == base[c]))
    && (connection in base ==>
          && connection in a && a[connection].Keys == base[connection].Keys
          && (forall k <- base[connection] | k !in ROLLBACK_PROPERTIES :: a[connection][k] == base[connection][k]))
  }

  ghost predicate Fits(step: Step, scope: Scope) {
    && Written(step) <= scope.paths && Faithful(step, scope.base, scope.rewritable, scope.interface)
    && (step.Modify? ==> scope.connection == Some(step.connection) && step.changes.Keys <= ROLLBACK_PROPERTIES)
  }

  /** The program writes only paths of the scope, and only rollback properties of its connection. */
  ghost predicate Confined(program: seq<Step>, scope: Scope) {
    forall step <- program :: Fits(step, scope)
  }

  /** The connection can be captured. */
  ghost predicate Connected(base: Store, scope: Scope) {
    scope.connection.Some? ==> scope.connection.value in base.connections
                               && ROLLBACK_PROPERTIES <= base.connections[scope.connection.value].Keys
  }

  /** A base that can be captured and persisted within the scope. */
  ghost predicate Anchored(base: Store, scope: Scope) {
    && scope.base == base.files && (forall p <- scope.rewritable :: p.HoldsStanzas())
    && BackupsLead(base.files, scope.rewritable, scope.interface) && Connected(base, scope)
  }

  ghost predicate ConnectionsWithin(s: Store, base: Store, scope: Scope) {
    if scope.connection.Some? then ConnectionsAgree(s.connections, base.connections, scope.connection.value)
    else s.connections == base.connections
  }

  ghost predicate FilesWithin(s: Store, base: Store, scope: Scope) {
    && AgreeOutside(s.files, base.files, scope.paths)
    && Sound(s.files, base.files, scope.rewritable, scope.interface)
  }

  /** State between capture and restore: it differs from the base only where the rollback reaches. */
  ghost predicate Within(s: Store, base: Store, scope: Scope) {
    FilesWithin(s, base, scope) && ConnectionsWithin(s, base, scope)
  }

  lemma BaseIsWithin(base: Store, scope: Scope)
    requires Anchored(base, scope)
    ensures Within(base, base, scope)
  {
    hide Spared, BackupsLead, Sound;
    SoundAtBase(base.files, scope.rewritable, scope.interface);
  }

  lemma StepStaysWithin(s: Store, base: Store, step: Step, scope: Scope)
    requires Fits(step, scope) && Anchored(base, scope) && Within(s, base, scope)
    ensures Within(Effect(s, step, scope.interface), base, scope)
  {
    hide FileEffect, Sound, BackupsLead, Faithful;
    StepKeepsConnections(s, base, step, scope);
    if !step.Modify? {
      StepWrites(s.files, base.files, scope.rewritable, step, scope.interface);
    }
  }

  lemma StepKeepsConnections(s: Store, base: Store, step: Step, scope: Scope)
    requires Fits(step, scope) && Connected(base, scope) && ConnectionsWithin(s, base, scope)
    ensures ConnectionsWithin(Effect(s, step, scope.interface), base, scope)
  {
    hide FileEffect, Faithful;
  }

  lemma {:induction false} ConfinedKeepsConnections(s: Store, base: Store, program: seq<Step>, k: nat, scope: Scope)
    requires k <= |program| && Confined(program, scope) && Connected(base, scope) && ConnectionsWithin(s, base, scope)
    ensures ConnectionsWithin(Exec(s, program, k, scope.interface), base, scope)
  {
    hide Effect, Connected, Fits, ConnectionsWithin;
    if k > 0 {
      ConfinedKeepsConnections(s, base, program, k - 1, scope);
      assert program[k - 1] in program;
      StepKeepsConnections(Exec(s, program, k - 1, scope.interface), base, program[k - 1], scope);
    }
  }

  lemma {:induction false} ConfinedStaysWithin(s: Store, base: Store, program: seq<Step>, k: nat, scope: Scope)
    requires k <= |program| && Confined(program, scope) && Anchored(base, scope) && Within(s, base, scope)
    ensures Within(Exec(s, program, k, scope.interface), base, scope)
  {
    hide Effect, Anchored, Fits, Within;
    if k > 0 {
      ConfinedStaysWithin(s, base, program, k - 1, scope);
      assert program[k - 1] in program;
      StepStaysWithin(Exec(s, program, k - 1, scope.interface), base, program[k - 1], scope);
    }
  }

  // ------------------------------------------------------------- log footprint

  /** Backing up and rewriting one of `paths`. */
  predicate Rewrites(step: Step, paths: seq<Path>) {
    (step.BackupStanzas? || step.WriteStanzas?) && step.path in paths
  }

  lemma {:induction false} StanzaStepsRewrite(paths: seq<Path>)
    ensures forall step <- StanzaSteps(paths) :: Rewrites(step, paths)
  {
    if paths != [] {
      StanzaStepsRewrite(paths[1..]);
      assert paths[0] in paths && forall p <- paths[1..] :: p in paths;
    }
  }

  lemma {:induction false} StanzaPathsListed(snaps: seq<Snapshot>)
    ensures forall p <- StanzaPaths(snaps) :: p == Main || (p.InDir? && exists x <- snaps :: x.path == p)
    ensures forall x <- snaps | x.path.InDir? :: x.path in StanzaPaths(snaps)
    ensures StanzaPaths(snaps) != [] && StanzaPaths(snaps)[0] == Main
  {
    if snaps != [] {
      var init := snaps[..|snaps| - 1];
      assert snaps == init + [snaps[|snaps| - 1]];
      StanzaPathsListed(init);
    }
  }

  /** The paths a list of snapshots names. */
  function PathsOf(snaps: seq<Snapshot>): set<Path> {
    set x <- snaps :: x.path
  }

  lemma SnapsPaths(files: Files, listing: seq<Path>)
    requires forall p <- listing | p in files :: !files[p].Directory?
    ensures PathsOf(Snaps(files, listing)) == set p <- listing
    ensures forall i | 0 <= i < |listing| :: Snaps(files, listing)[i].path == listing[i]
  {
    var snaps := Snaps(files, listing);
    assert forall i | 0 <= i < |listing| :: snaps[i] in snaps && snaps[i].path == listing[i];
  }

  lemma ConfinedBoth(a: seq<Step>, b: seq<Step>, scope: Scope)
    requires Confined(a, scope) && Confined(b, scope)
    ensures Confined(a + b, scope)
  {
  }

  lemma NetworkManagerConfined(c: Settings, connection: string, scope: Scope)
    requires scope.connection == Some(connection)
    ensures Confined(NetworkManagerSteps(c, connection), scope)
  {
  }

  lemma WriteConfined(path: Path, content: string, mode: nat, scope: Scope)
    requires path in scope.paths && path !in scope.rewritable
    ensures Confined([Write(path, content, mode)], scope)
  {
  }

  /** The files whose stanzas are removed are the rewritable ones, and captured with their backups. */
  lemma StanzaPathsCaptured(files: Files, listing: seq<Path>)
    requires forall p <- listing | p in files :: !files[p].Directory?
    requires IsListing(listing, CapturedPaths(IfupdownBackend, files))
    ensures var paths := StanzaPaths(Snaps(files, listing));
            && (set p <- paths) == Rewritable(IfupdownBackend, files)
            && forall p <- paths :: {p, BackupOf(p)} <= CapturedPaths(IfupdownBackend, files)
  {
    var snaps := Snaps(files, listing);
    var paths := StanzaPaths(snaps);
    SnapsPaths(files, listing);
    StanzaPathsListed(snaps);
    forall p
      ensures p in paths <==> p in Rewritable(IfupdownBackend, files)
      ensures p in paths ==> {p, BackupOf(p)} <= CapturedPaths(IfupdownBackend, files)
    {
      CapturedDirectoryFile(files, p);
      assert p.InDir? ==> (p in paths <==> p in PathsOf(snaps)) by {
        if p in PathsOf(snaps) { var x :| x in snaps && x.path == p; }
      }
    }
  }

  lemma CapturedDirectoryFile(files: Files, p: Path)
    ensures p.InDir? ==>
              (p in CapturedPaths(IfupdownBackend, files) <==> p in Rewritable(IfupdownBackend, files))
    ensures p in Rewritable(IfupdownBackend, files) ==> {p, BackupOf(p)} <= CapturedPaths(IfupdownBackend, files)
  {
  }

  lemma StanzasConfined(files: Files, listing: seq<Path>, connection: string, interface: string)
    requires forall p <- listing | p in files :: !files[p].Directory?
    requires IsListing(listing, CapturedPaths(IfupdownBackend, files))
    ensures Confined(StanzaSteps(StanzaPaths(Snaps(files, listing))),
                     ScopeOf(IfupdownBackend, files, connection, interface))
  {
    hide CapturedPaths, Snaps, IsListing;
    StanzaPathsCaptured(files, listing);
    StanzaStepsRewrite(StanzaPaths(Snaps(files, listing)));
  }

  lemma MainConfined(scope: Scope)
    requires {Main, BackupOf(Main)} <= scope.paths && Main in scope.rewritable
    ensures Confined([BackupMain, WriteMain], scope)
  {
  }

  lemma BackendConfined(
    backend: Backend, s: Store, connection: string, listing: seq<Path>, c: Settings, interface: string)
    requires Capturable(backend, s, connection) && IsListing(listing, CapturedPaths(backend, s.files))
    requires forall p <- listing | p in s.files :: !s.files[p].Directory?
    requires backend.NetworkManager? ==> listing == [CloudInit]
    ensures var r := Capture(backend, s, connection, listing);
            Confined(BackendSteps(backend, c, interface, r), ScopeOf(backend, s.files, connection, interface))
  {
    var r, scope := Capture(backend, s, connection, listing), ScopeOf(backend, s.files, connection, interface);
    match backend
    case NetworkManager => NetworkManagerConfined(c, connection, scope);
    case SystemdNetworkd => WriteConfined(Networkd, RenderNetworkd(c, interface), 0x1A4, scope);
    case IfupdownBackend =>
      MainConfined(scope);
      WriteConfined(Managed, RenderIfupdown(c, interface), 0x1A4, scope);
      StanzasConfined(s.files, listing, connection, interface);
      var w := [Write(Managed, RenderIfupdown(c, interface), 0x1A4)];
      ConfinedBoth([BackupMain, WriteMain], w, scope);
      ConfinedBoth([BackupMain, WriteMain] + w, StanzaSteps(StanzaPaths(r.files)), scope);
      assert [BackupMain, WriteMain] + w
        == [BackupMain, WriteMain, Write(Managed, RenderIfupdown(c, interface), 0x1A4)];
  }

  lemma ListingOfCloudInit(listing: seq<Path>)
    requires IsListing(listing, {CloudInit})
    ensures listing == [CloudInit]
  {
    assert CloudInit in listing;
    assert |listing| > 1 ==> listing[0] != listing[1];
    forall i | 0 <= i < |listing|
      ensures listing[i] == CloudInit
    {
      assert listing[i] in listing;
    }
  }

  /** The persist steps name only what is in the captured rollback. */
  lemma PersistConfined(
    backend: Backend, s: Store, connection: string, listing: seq<Path>, c: Settings, interface: string, cloudInit: bool)
    requires Capturable(backend, s, connection) && IsListing(listing, CapturedPaths(backend, s.files))
    ensures forall p <- listing | p in s.files :: !s.files[p].Directory?
    ensures backend.NetworkManager? ==> listing == [CloudInit]
    ensures var r := Capture(backend, s, connection, listing);
            Confined(PersistProgram(backend, c, interface, r, cloudInit),
                     ScopeOf(backend, s.files, connection, interface))
  {
    if backend.NetworkManager? {
      ListingOfCloudInit(listing);
    }
    var r, scope := Capture(backend, s, connection, listing), ScopeOf(backend, s.files, connection, interface);
    BackendConfined(backend, s, connection, listing, c, interface);
    WriteConfined(CloudInit, CLOUD_INIT_CONTENT, 0x1A4, scope);
    ConfinedBoth(BackendSteps(backend, c, interface, r),
                 if cloudInit then [Write(CloudInit, CLOUD_INIT_CONTENT, 0x1A4)] else [], scope);
  }

  /**
   Whatever the links of the captured base are, persisting stays within the captured
   paths exactly when none of its copies goes through a dangling link that leads out of them.
   */
  lemma PersistConfinedExactlyWhen(
    backend: Backend, s: Store, connection: string, listing: seq<Path>, c: Settings, interface: string, cloudInit: bool)
    requires Capturable(backend, s, connection) && IsListing(listing, CapturedPaths(backend, s.files))
    requires forall p <- listing | p in s.files :: !s.files[p].Directory?
    requires backend.NetworkManager? ==> listing == [CloudInit]
    ensures var program := PersistProgram(backend, c, interface, Capture(backend, s, connection, listing), cloudInit);
            var paths := CapturedPaths(backend, s.files);
            ((forall k | 0 <= k <= |program| :: AgreeOutside(Exec(s, program, k, interface).files, s.files, paths))
             <==> (forall k | 0 <= k < |program| ::
                   !Leaks(Exec(s, program, k, interface).files, program[k], interface, paths)))
  {
    hide PersistProgram, Capture, CapturedPaths, Exec, Leaks, AgreeOutside, IsListing, Rewritable, Faithful;
    PersistConfined(backend, s, connection, listing, c, interface, cloudInit);
    var program := PersistProgram(backend, c, interface, Capture(backend, s, connection, listing), cloudInit);
    assert forall step <- program :: Fits(step, ScopeOf(backend, s.files, connection, interface));
    ProgramConfinedExactlyWhen(s, program, interface, CapturedPaths(backend, s.files));
  }

  /**
   The log covers the footprint: where no backup of a rewritable file is a dangling
   link, every prefix of a persist changes only captured paths and properties.
   */
  lemma LogCoversFootprint(
    backend: Backend, s: Store, connection: string, listing: seq<Path>, c: Settings, interface: string, cloudInit: bool,
    k: nat)
    requires Capturable(backend, s, connection) && IsListing(listing, CapturedPaths(backend, s.files))
    requires BackupsLead(s.files, Rewritable(backend, s.files), interface)
    requires forall p <- listing | p in s.files :: !s.files[p].Directory?
    requires backend.NetworkManager? ==> listing == [CloudInit]
    requires var r := Capture(backend, s, connection, listing);
             k <= |PersistProgram(backend, c, interface, r, cloudInit)|
    ensures var program := PersistProgram(backend, c, interface, Capture(backend, s, connection, listing), cloudInit);
            var after := Exec(s, program, k, interface);
            AgreeOutside(after.files, s.files, CapturedPaths(backend, s.files))
            && (if backend.NetworkManager? then ConnectionsAgree(after.connections, s.connections, connection)
                else after.connections == s.connections)
  {
    hide PersistProgram, Capture, CapturedPaths, Exec, AgreeOutside, IsListing, Rewritable, BackupsLead,
      ConnectionsAgree, Confined;
    var scope := ScopeOf(backend, s.files, connection, interface);
    PersistConfined(backend, s, connection, listing, c, interface, cloudInit);
    RewritableHold(backend, s.files);
    BaseIsWithin(s, scope);
    ConfinedStaysWithin(s, s,
                        PersistProgram(backend, c, interface, Capture(backend, s, connection, listing), cloudInit),
                        k, scope);
  }

  // ------------------------------------------------------------------- restore

  function RestoreOne(files: Files, snap: Snapshot): Files {
    match snap
    case Absent(p) => files - {p}
    case Content(p, content, mode) => files[p := File(content, mode)]
    case Target(p, t) => files[p := Link(t)]
  }

  function RestoreAll(files: Files, snaps: seq<Snapshot>): Files
    decreases |snaps|
  {
    if snaps == [] then files else RestoreAll(RestoreOne(files, snaps[0]), snaps[1..])
  }

  lemma {:induction false} ExecConcat(s: Store, a: seq<Step>, b: seq<Step>, k: nat, interface: string)
    requires k <= |b|
    ensures Exec(s, a + b, |a| + k, interface) == Exec(ExecAll(s, a, interface), b, k, interface)
  {
    hide Effect, FileEffect;
    if k == 0 {
      ExecPrefix(s, a, b, |a|, interface);
    } else {
      ExecConcat(s, a, b, k - 1, interface);
      assert (a + b)[|a| + k - 1] == b[k - 1];
    }
  }

  lemma {:induction false} ExecPrefix(s: Store, a: seq<Step>, b: seq<Step>, k: nat, interface: string)
    requires k <= |a|
    ensures Exec(s, a + b, k, interface) == Exec(s, a, k, interface)
  {
    hide Effect, FileEffect;
    if k > 0 {
      ExecPrefix(s, a, b, k - 1, interface);
      assert (a + b)[k - 1] == a[k - 1];
    }
  }

  lemma ExecOne(s: Store, step: Step, interface: string)
    ensures ExecAll(s, [step], interface) == Effect(s, step, interface)
  {
    assert Exec(s, [step], 0, interface) == s;
  }

  lemma ExecRestoreOne(s: Store, snap: Snapshot, interface: string)
    ensures ExecAll(s, RestoreSteps(snap), interface) == s.(files := RestoreOne(s.files, snap))
  {
    match snap
    case Absent(p) => ExecOne(s, Unlink(p), interface);
    case Content(p, content, mode) => ExecOne(s, Write(p, content, mode), interface);
    case Target(p, t) =>
      assert Exec(s, RestoreSteps(snap), 0, interface) == s;
      assert Exec(s, RestoreSteps(snap), 1, interface) == s.(files := s.files - {p});
      assert (s.files - {p})[p := Link(t)] == s.files[p := Link(t)];
  }

  lemma {:induction false} ExecRestoreFiles(s: Store, snaps: seq<Snapshot>, interface: string)
    ensures ExecAll(s, RestoreFiles(snaps), interface) == s.(files := RestoreAll(s.files, snaps))
    decreases |snaps|
  {
    if snaps == [] {
    } else {
      var a, b := RestoreSteps(snaps[0]), RestoreFiles(snaps[1..]);
      ExecConcat(s, a, b, |b|, interface);
      ExecRestoreOne(s, snaps[0], interface);
      ExecRestoreFiles(s.(files := RestoreOne(s.files, snaps[0])), snaps[1..], interface);
    }
  }

  /** The node a snapshot stands for. */
  predicate Shows(files: Files, snap: Snapshot) {
    match snap
    case Absent(p) => p !in files
    case Content(p, content, mode) => p in files && files[p] == File(content, mode)
    case Target(p, t) => p in files && files[p] == Link(t)
  }

  /** After restoring, every listed path shows its snapshot and no other path has changed. */
  lemma {:induction false} RestoreAllShows(files: Files, snaps: seq<Snapshot>)
    requires forall i, j | 0 <= i < j < |snaps| :: snaps[i].path != snaps[j].path
    ensures forall x <- snaps :: Shows(RestoreAll(files, snaps), x)
    ensures AgreeOutside(RestoreAll(files, snaps), files, PathsOf(snaps))
    decreases |snaps|
  {
    if snaps != [] {
      var head, rest := snaps[0], snaps[1..];
      var once := RestoreOne(files, head);
      RestoreAllShows(once, rest);
      assert PathsOf(snaps) == {head.path} + PathsOf(rest);
      assert head.path !in PathsOf(rest);
      assert Shows(once, head);
    }
  }

  /** The base, with the line breaks of captured files turned into `\n`. */
  function NormalOn(base: Files, paths: set<Path>): Files {
    map p <- base :: match base[p] case File(content, mode) =>
      if p in paths then File(Universal(content), mode) else base[p] case n => n
  }

  lemma ShowsNormal(base: Files, p: Path, result: Files, paths: set<Path>)
    requires p in base ==> !base[p].Directory?
    requires p in paths && Shows(result, Snap(base, p))
    ensures (p in result <==> p in NormalOn(base, paths)) && (p in result ==> result[p] == NormalOn(base, paths)[p])
  {
  }

  lemma AsBefore(files: Files, base: Files, result: Files, paths: set<Path>, p: Path)
    requires AgreeOutside(files, base, paths) && AgreeOutside(result, files, paths) && p !in paths
    ensures (p in result <==> p in NormalOn(base, paths)) && (p in result ==> result[p] == NormalOn(base, paths)[p])
  {
  }

  lemma RestoreIsNormal(files: Files, base: Files, listing: seq<Path>)
    requires forall p <- listing | p in base :: !base[p].Directory?
    requires forall i, j | 0 <= i < j < |listing| :: listing[i] != listing[j]
    requires AgreeOutside(files, base, set p <- listing)
    ensures RestoreAll(files, Snaps(base, listing)) == NormalOn(base, set p <- listing)
  {
    hide RestoreAll, Universal, Snap, Shows, NormalOn, AgreeOutside;
    var snaps, paths := Snaps(base, listing), set p <- listing;
    SnapsPaths(base, listing);
    RestoreAllShows(files, snaps);
    var result, normal := RestoreAll(files, snaps), NormalOn(base, paths);
    forall p
      ensures (p in result <==> p in normal) && (p in normal ==> result[p] == normal[p])
    {
      if p in paths {
        var i :| 0 <= i < |listing| && listing[i] == p;
        assert snaps[i] in snaps && snaps[i] == Snap(base, p);
        ShowsNormal(base, p, result, paths);
      } else {
        AsBefore(files, base, result, paths, p);
      }
    }
    assert result.Keys == normal.Keys;
  }

  /** The captured files hold no carriage return. */
  ghost predicate NoCarriageReturns(base: Files, paths: set<Path>) {
    forall p <- base | p in paths && base[p].File? :: '\r' !in base[p].content
  }

  lemma NormalExactlyWhen(base: Files, paths: set<Path>)
    ensures NormalOn(base, paths) == base <==> NoCarriageReturns(base, paths)
  {
    var normal := NormalOn(base, paths);
    forall p <- base | p in paths && base[p].File?
      ensures normal[p] == base[p] <==> '\r' !in base[p].content
    {
      UniversalExact(base[p].content);
    }
    if NoCarriageReturns(base, paths) {
      assert forall p <- base :: normal[p] == base[p];
    }
  }

  /** Restoring the rollback from anywhere within its reach brings the base back. */
  lemma RestoreUndoes(
    s: Store, base: Store, backend: Backend, connection: string, listing: seq<Path>, interface: string)
    requires Capturable(backend, base, connection) && IsListing(listing, CapturedPaths(backend, base.files))
    requires forall p <- listing | p in base.files :: !base.files[p].Directory?
    requires backend.NetworkManager? ==> listing == [CloudInit]
    requires AgreeOutside(s.files, base.files, CapturedPaths(backend, base.files))
    requires if backend.NetworkManager? then ConnectionsAgree(s.connections, base.connections, connection)
             else s.connections == base.connections
    ensures ExecAll(s, RestoreProgram(Capture(backend, base, connection, listing)), interface)
         == base.(files := NormalOn(base.files, CapturedPaths(backend, base.files)))
  {
    hide FileEffect, RestoreAll, NormalOn, Snap, AgreeOutside, JoinComma;
    var r := Capture(backend, base, connection, listing);
    assert CapturedPaths(backend, base.files) == set p <- listing;
    RestoreIsNormal(s.files, base.files, listing);
    if backend.NetworkManager? {
      RestoreConnection(s, base, connection, r, interface);
      OneSnapshot(s.files, base.files, listing, r.file);
    } else {
      ExecRestoreFiles(s, r.files, interface);
    }
  }

  /** The NetworkManager restore puts the properties and then the one file back. */
  lemma RestoreConnection(s: Store, base: Store, connection: string, r: Rollback, interface: string)
    requires ConnectionsAgree(s.connections, base.connections, connection)
    requires connection in base.connections && ROLLBACK_PROPERTIES <= base.connections[connection].Keys
    requires r.Properties? && r.connection == connection
    requires r.values == map p <- ROLLBACK_PROPERTIES :: [base.connections[connection][p]]
    ensures ExecAll(s, RestoreProgram(r), interface) == Store(RestoreOne(s.files, r.file), base.connections)
  {
    hide FileEffect, RestoreOne;
    var reset := Modify(connection, map p <- r.values :: JoinComma(r.values[p]));
    var after := Effect(s, reset, interface);
    ModifyRestores(s, base, connection, reset.changes);
    ExecConcat(s, [reset], RestoreSteps(r.file), |RestoreSteps(r.file)|, interface);
    ExecOne(s, reset, interface);
    ExecRestoreOne(after, r.file, interface);
  }

  lemma OneSnapshot(files: Files, base: Files, listing: seq<Path>, snap: Snapshot)
    requires listing == [CloudInit] && (CloudInit in base ==> !base[CloudInit].Directory?)
             && snap == Snaps(base, listing)[0]
    ensures RestoreAll(files, Snaps(base, listing)) == RestoreOne(files, snap)
  {
    assert Snaps(base, listing)[1..] == [];
  }

  lemma ModifyRestores(s: Store, base: Store, connection: string, changes: map<Property, string>)
    requires ConnectionsAgree(s.connections, base.connections, connection)
    requires connection in base.connections && ROLLBACK_PROPERTIES <= base.connections[connection].Keys
    requires changes == map p <- ROLLBACK_PROPERTIES :: base.connections[connection][p]
    ensures connection in s.connections
    ensures s.connections[connection := s.connections[connection] + changes] == base.connections
  {
    var after, original := s.connections[connection] + changes, base.connections[connection];
    assert forall k <- original :: after[k] == original[k];
    assert after.Keys == original.Keys;
    assert after == original;
    var all := s.connections[connection := after];
    assert forall c <- base.connections :: all[c] == base.connections[c];
    assert all.Keys == base.connections.Keys;
  }

  /** A copy through a dangling link out of the captured paths is in no snapshot, and a restore leaves it behind. */
  lemma DanglingBackupEscapes(files: Files, base: Files, listing: seq<Path>, step: Step, interface: string)
    requires IsListing(listing, CapturedPaths(IfupdownBackend, base))
    requires forall p <- listing | p in base :: !base[p].Directory?
    requires AgreeOutside(files, base, CapturedPaths(IfupdownBackend, base))
    requires Leaks(files, step, interface, CapturedPaths(IfupdownBackend, base))
    ensures RestoreAll(FileEffect(files, step, interface), Snaps(base, listing)) != base
    ensures step.BackupMain? || step.BackupStanzas?
    ensures var t := files[BackupOf(if step.BackupMain? then Main else step.path)].target;
            var after := RestoreAll(FileEffect(files, step, interface), Snaps(base, listing));
            t in after && after[t].File? && (t in base ==> base[t].Link?)
  {
    hide NewMain, NewStanzas, RestoreAll, Snap, CapturedPaths;
    var t := files[BackupOf(if step.BackupMain? then Main else step.path)].target;
    LeakedFile(files, step, interface, CapturedPaths(IfupdownBackend, base));
    SnapsPaths(base, listing);
    RestoreAllShows(FileEffect(files, step, interface), Snaps(base, listing));
    assert t !in CapturedPaths(IfupdownBackend, base) && t !in PathsOf(Snaps(base, listing));
  }

  lemma LeakedFile(files: Files, step: Step, interface: string, paths: set<Path>)
    requires Leaks(files, step, interface, paths)
    ensures step.BackupMain? || step.BackupStanzas?
    ensures var t := files[BackupOf(if step.BackupMain? then Main else step.path)].target;
            && t !in paths && (t in files ==> files[t].Link?)
            && t in FileEffect(files, step, interface) && FileEffect(files, step, interface)[t].File?
  {
    hide NewMain, NewStanzas, Followed;
    FollowedIsFile(files, if step.BackupMain? then Main else step.path);
  }
}
