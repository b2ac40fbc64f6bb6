/**
 The reversible network transition: prepare, commit, abort and finalize over
 the stored record, the persistent configuration and the live state, with any
 step failing and the process killed between any two steps.
 */
module NetworkTransition {
  import opened Wrappers
  import opened Ifupdown
  import opened NetworkStore
  import opened NetworkRestore
  import opened NetworkConfluence
  import opened NetworkResume
  import opened NetworkLive

  // --------------------------------------------------------------------- records

  /** The record kept under /run while a transition is pending. */
  datatype Record = Record(
    id: string, committed: bool, backend: Backend, interface: string, settings: Settings,
    added: seq<Address>, tables: map<Version, nat>, rollback: Rollback)

  function AddedBy(goals: Goals): seq<Address> {
    (if goals.four.added && goals.four.address.Some? then [goals.four.address.value] else [])
    + (if goals.six.added && goals.six.address.Some? then [goals.six.address.value] else [])
  }

  function TablesOf(goals: Goals): map<Version, nat> {
    (if goals.four.table.Some? then map[Four := goals.four.table.value] else map[])
    + (if goals.six.table.Some? then map[Six := goals.six.table.value] else map[])
  }

  function RecordOf(id: string, committed: bool, job: Job, goals: Goals, rollback: Rollback): Record {
    Record(id, committed, job.backend, job.interface, job.settings, AddedBy(goals), TablesOf(goals), rollback)
  }

  /** What a loaded record asks to be undone. */
  function GoalFrom(address: Option<Address>, gateway: Option<string>, r: Record, v: Version): Goal {
    Goal(address, address.Some? && address.value in r.added, gateway, if v in r.tables then Some(r.tables[v]) else None)
  }

  function GoalsFrom(r: Record): Goals {
    Goals(GoalFrom(r.settings.static4, r.settings.gateway4, r, Four),
          GoalFrom(r.settings.static6, r.settings.gateway6, r, Six))
  }

  predicate Matches(goals: Goals, c: Settings) {
    && goals.four.address == c.static4 && goals.four.gateway == c.gateway4
    && goals.six.address == c.static6 && goals.six.gateway == c.gateway6
    && (c.static4.Some? && c.static6.Some? ==> c.static4 != c.static6)
  }

  // ---------------------------------------------------------------------- loading

  predicate IsIdentity(id: string) {
    |id| == 64 && forall c <- id :: '0' <= c <= '9' || 'a' <= c <= 'f'
  }

  /** Of the settings' validation: a gateway needs an address of its version. */
  predicate ValidSettings(c: Settings) {
    (c.gateway4.Some? ==> c.static4.Some?) && (c.gateway6.Some? ==> c.static6.Some?)
  }

  predicate Printable(connection: string) {
    connection != "" && forall c <- connection :: c as int >= 32 && c as int != 127
  }

  predicate ValidSnapshot(x: Snapshot) {
    x.Content? ==> x.mode <= 0xFFF
  }

  predicate AllowedPath(p: Path, backend: Backend) {
    match backend
    case NetworkManager => p == CloudInit
    case SystemdNetworkd => p == CloudInit || p == Networkd
    case IfupdownBackend => p == CloudInit || p == Main || p == BackupOf(Main) || p.InConfigDir()
  }

  predicate IsOneLine(s: string) { '\n' !in s && '\r' !in s }

  predicate RequiredPath(p: Path, backend: Backend) {
    p == CloudInit || p == (if backend.SystemdNetworkd? then Networkd else Main)
      || (backend.IfupdownBackend? && p == Managed)
  }

  /** `_validate_persistence_rollback`. */
  ghost predicate ValidRollback(r: Rollback, backend: Backend) {
    match r
    case Properties(connection, values, file) =>
      && backend.NetworkManager? && Printable(connection) && values.Keys == ROLLBACK_PROPERTIES
      && file.path == CloudInit && ValidSnapshot(file)
      && (forall p <- values, v <- values[p] :: IsOneLine(v))
    case Snapshots(files) =>
      && !backend.NetworkManager? && files != []
      && (forall i, j | 0 <= i < j < |files| :: files[i].path != files[j].path)
      && (forall x <- files :: AllowedPath(x.path, backend) && ValidSnapshot(x))
      && (forall p | RequiredPath(p, backend) :: p in PathsOf(files))
  }

  /** `_load_network_transition` returns instead of raising. */
  ghost predicate Accepts(r: Record) {
    && IsIdentity(r.id) && ValidSettings(r.settings)
    && (forall i, j | 0 <= i < j < |r.added| :: r.added[i] != r.added[j])
    && (forall a <- r.added :: Some(a) == r.settings.static4 || Some(a) == r.settings.static6)
    && (forall v <- r.tables :: FIRST_TABLE <= r.tables[v] < TABLES_END)
    && (Four in r.tables <==> r.settings.gateway4.Some?) && (Six in r.tables <==> r.settings.gateway6.Some?)
    && ValidRollback(r.rollback, r.backend)
  }

  /** Modes have twelve bits and properties are printed on one line. */
  ghost predicate WellFormed(base: Store) {
    && (forall p <- base.files | base.files[p].File? :: base.files[p].mode <= 0xFFF)
    && (forall c <- base.connections, k <- base.connections[c] :: IsOneLine(base.connections[c][k]))
  }

  lemma LoadedGoals(id: string, committed: bool, job: Job, goals: Goals, live: Live, rollback: Rollback)
    requires Matches(goals, job.settings) && goals.Chosen(live)
    ensures GoalsFrom(RecordOf(id, committed, job, goals, rollback)) == goals
  {
    hide MustAdd, Free;
    var r := RecordOf(id, committed, job, goals, rollback);
    assert GoalsFrom(r).four == goals.four;
    assert GoalsFrom(r).six == goals.six;
  }

  lemma SnapshotIsValid(base: Store, p: Path)
    requires WellFormed(base) && (p in base.files ==> !base.files[p].Directory?)
    ensures ValidSnapshot(Snap(base.files, p)) && Snap(base.files, p).path == p
  {
  }

  lemma CapturedAllowed(base: Store, job: Job, p: Path)
    requires Capturing(base, job) && p in job.listing
    ensures AllowedPath(p, job.backend)
  {
    assert p in CapturedPaths(job.backend, base.files);
  }

  lemma RequiredCaptured(base: Store, job: Job, p: Path)
    requires Capturing(base, job) && RequiredPath(p, job.backend) && !job.backend.NetworkManager?
    ensures p in job.listing
  {
    assert p in CapturedPaths(job.backend, base.files);
  }

  lemma SnapshotsAccepted(base: Store, job: Job)
    requires Capturing(base, job) && WellFormed(base) && !job.backend.NetworkManager?
    ensures ValidRollback(Log(base, job), job.backend)
  {
    hide CapturedPaths, Snap, AllowedPath, RequiredPath, ValidSnapshot, WellFormed;
    var snaps := Snaps(base.files, job.listing);
    SnapsPaths(base.files, job.listing);
    forall x <- snaps
      ensures AllowedPath(x.path, job.backend) && ValidSnapshot(x)
    {
      var i :| 0 <= i < |snaps| && snaps[i] == x;
      assert job.listing[i] in job.listing;
      SnapshotIsValid(base, job.listing[i]);
      CapturedAllowed(base, job, job.listing[i]);
    }
    forall p | RequiredPath(p, job.backend)
      ensures p in PathsOf(snaps)
    {
      RequiredCaptured(base, job, p);
    }
    assert RequiredPath(CloudInit, job.backend) by { CloudInitRequired(job.backend); }
  }

  lemma CloudInitRequired(backend: Backend)
    ensures RequiredPath(CloudInit, backend)
  {
  }

  lemma PropertiesAcceptedExactlyWhen(base: Store, job: Job)
    requires Capturing(base, job) && WellFormed(base) && job.backend.NetworkManager?
    ensures ValidRollback(Log(base, job), job.backend) <==> Printable(job.connection)
  {
    hide Printable, CapturedPaths, ValidSnapshot, Snap;
    var r := Log(base, job);
    SnapshotIsValid(base, CloudInit);
    assert job.listing[0] == CloudInit;
    forall p <- r.values, v <- r.values[p]
      ensures IsOneLine(v)
    {
      assert p in base.connections[job.connection];
    }
  }

  /**
   Writer and validator agree: what prepare or commit writes is accepted by the
   loader in both states exactly when the connection name is printable.
   */
  lemma RecordAcceptedExactlyWhen(id: string, committed: bool, base: Store, live: Live, job: Job, goals: Goals)
    requires Capturing(base, job) && WellFormed(base) && IsIdentity(id) && ValidSettings(job.settings)
    requires Matches(goals, job.settings) && goals.Chosen(live)
    ensures Accepts(RecordOf(id, committed, job, goals, Log(base, job)))
       <==> (job.backend.NetworkManager? ==> Printable(job.connection))
  {
    hide Capturing, ValidRollback, Printable, WellFormed, MustAdd, Free, IsIdentity;
    if job.backend.NetworkManager? {
      PropertiesAcceptedExactlyWhen(base, job);
    } else {
      SnapshotsAccepted(base, job);
    }
  }

  // ----------------------------------------------------------------------- worlds

  /** The paths, and whether the properties, that aborts have begun to put back since the last prepare or commit. */
  datatype Undone = Undone(paths: set<Path>, properties: bool)

  const NOTHING := Undone({}, false)

  /** History: what the last prepare found, and what has been undone since. */
  datatype Origin = Origin(job: Job, goals: Goals, base: Store, live: Live, undone: Undone)

  function Undoing(u: Undone, undo: seq<Step>, k: nat): Undone
    requires k <= |undo|
  {
    if k == 0 then u
    else
      var v := Undoing(u, undo, k - 1);
      Undone(v.paths + Written(undo[k - 1]), v.properties || undo[k - 1].Modify?)
  }

  /** The host. `cloudInit` says that its configuration directory exists. */
  datatype World = World(store: Store, live: Live, record: Option<Record>, cloudInit: bool, origin: Option<Origin>)

  /**
   One call of an entry point, with the number of steps it completes. A call that
   completes fewer than all was killed or met a failing step.
   A prepare that finds a record is an abort followed by a prepare, and a prepare
   whose live steps fail is a prepare followed by an abort.
   */
  datatype Event =
    | Prepare(id: string, job: Job, goals: Goals, done: nat)
    | Commit(expected: Option<string>, done: nat, restored: nat)   // `restored` steps of the rollback after a failure
    | Abort(expected: Option<string>, done: nat, refused: set<LiveStep>)
    | Finalize(expected: Option<string>)

  /** The loader returns the pending record and it is the expected one. */
  ghost predicate Loads(w: World, expected: Option<string>) {
    w.record.Some? && Accepts(w.record.value) && (expected.Some? ==> expected.value == w.record.value.id)
  }

  function PersistOf(r: Record, cloudInit: bool): seq<Step> {
    PersistProgram(r.backend, r.settings, r.interface, r.rollback, cloudInit)
  }

  function UndoOf(r: Record): seq<Step> {
    RestoreProgram(r.rollback)
  }

  /** Restore steps, undo commands, and the removal of the record. */
  function AbortLength(r: Record): nat {
    |UndoOf(r)| + |LiveUndo(GoalsFrom(r))| + 1
  }

  ghost predicate Enabled(w: World, e: Event) {
    match e
    case Prepare(id, job, goals, done) =>
      && w.record.None? && Capturing(w.store, job) && WellFormed(w.store) && job.cloudInit == w.cloudInit
      && IsIdentity(id) && ValidSettings(job.settings) && Matches(goals, job.settings) && goals.Chosen(w.live)
      && done <= |LiveSteps(goals)|
    case Commit(expected, done, restored) =>
      Loads(w, expected) ==>
        done <= |PersistOf(w.record.value, w.cloudInit)| + 1 && restored <= |UndoOf(w.record.value)|
    case Abort(expected, done, _) => Loads(w, expected) ==> done <= AbortLength(w.record.value)
    case Finalize(_) => true
  }

  ghost function Committed(w: World, done: nat, restored: nat): World
    requires w.record.Some? && done <= |PersistOf(w.record.value, w.cloudInit)| + 1
             && restored <= |UndoOf(w.record.value)|
  {
    var r := w.record.value;
    var program := PersistOf(r, w.cloudInit);
    if r.committed then w
    else if done == |program| + 1 then
      w.(store := ExecAll(w.store, program, r.interface), record := Some(r.(committed := true)),
         origin := if w.origin.Some? then Some(w.origin.value.(undone := NOTHING)) else None)
    else
      w.(store := Exec(Exec(w.store, program, done, r.interface), UndoOf(r), restored, r.interface))
  }

  ghost function Aborted(w: World, done: nat, refused: set<LiveStep>): World
    requires w.record.Some? && done <= AbortLength(w.record.value)
  {
    var r := w.record.value;
    var undo, live := UndoOf(r), LiveUndo(GoalsFrom(r));
    var begun :=
      if w.origin.None? then None
      else Some(w.origin.value.(undone := Undoing(w.origin.value.undone, undo, Least(done, |undo|))));
    if done < |undo| then w.(store := Exec(w.store, undo, done, r.interface), origin := begun)
    else
      var k := if done - |undo| <= |live| then done - |undo| else |live|;
      w.(store := ExecAll(w.store, undo, r.interface),
         live := RunLive(w.live, GoalsFrom(r), live, k, refused),
         record := if done == AbortLength(r) then None else w.record,
         origin := begun)
  }

  ghost function Apply(w: World, e: Event): World
    requires Enabled(w, e)
  {
    match e
    case Prepare(id, job, goals, done) =>
      w.(record := Some(RecordOf(id, false, job, goals, Log(w.store, job))),
         live := RunLive(w.live, goals, LiveSteps(goals), done, {}),
         origin := Some(Origin(job, goals, w.store, w.live, NOTHING)))
    case Commit(expected, done, restored) => if Loads(w, expected) then Committed(w, done, restored) else w
    case Abort(expected, done, refused) => if Loads(w, expected) then Aborted(w, done, refused) else w
    case Finalize(expected) =>
      if Loads(w, expected) && w.record.value.committed then w.(record := None) else w
  }

  /** A call for another transition than the pending one changes nothing. */
  lemma OnlyItsOwn(w: World, e: Event)
    requires Enabled(w, e) && !e.Prepare? && e.expected.Some?
    requires w.record.Some? && w.record.value.id != e.expected.value
    ensures Apply(w, e) == w
  {
    hide Accepts;
  }

  /** The files that a rollback of this backend may write. */
  predicate OfBackend(p: Path, backend: Backend) {
    match backend
    case NetworkManager => p == CloudInit
    case SystemdNetworkd => p == CloudInit || p == Networkd
    case IfupdownBackend => p == CloudInit || p == Main || p == BackupOf(Main) || p.InConfigDir()
  }

  /** What a step of a rollback may do. */
  ghost predicate StepConfined(step: Step, r: Record) {
    match step
    case Modify(connection, changes) =>
      && r.backend.NetworkManager? && r.rollback.Properties? && connection == r.rollback.connection
      && changes.Keys <= ROLLBACK_PROPERTIES && connection != ""
      && forall c <- connection :: c as int >= 32 && c as int != 127
    case Write(p, _, mode) => OfBackend(p, r.backend) && mode <= 0xFFF
    case Unlink(p) => OfBackend(p, r.backend)
    case Symlink(p, _) => OfBackend(p, r.backend)
    case _ => false
  }

  /**
   Whatever record the loader accepts, however it came about, restoring it writes only files of
   its backend and rollback properties of the one connection, and the live undo touches only the
   requested addresses and tables of the range.
   */
  lemma AcceptedIsConfined(r: Record)
    requires Accepts(r)
    ensures |r.id| == 64 && forall c <- r.id :: c in "0123456789abcdef"
    ensures forall step <- UndoOf(r) :: StepConfined(step, r)
    ensures var g := GoalsFrom(r);
            && (forall v :: g.Of(v).table.Some? ==> 20000 <= g.Of(v).table.value < 20100 && g.Of(v).gateway.Some?)
            && (forall v :: g.Of(v).gateway.Some? ==> g.Of(v).table.Some? && g.Of(v).address.Some?)
            && forall a <- r.added :: g.four.address == Some(a) || g.six.address == Some(a)
    ensures !r.backend.NetworkManager? ==>
              && r.rollback.Snapshots? && CloudInit in PathsOf(r.rollback.files)
              && (if r.backend.SystemdNetworkd? then Networkd else Main) in PathsOf(r.rollback.files)
              && (r.backend.IfupdownBackend? ==> Managed in PathsOf(r.rollback.files))
              && forall i, j | 0 <= i < j < |r.rollback.files| :: r.rollback.files[i].path != r.rollback.files[j].path
  {
    hide IsIdentity, JoinComma, RestoreFiles;
    IdentityMeans(r.id);
    match r.rollback {
      case Properties(connection, values, file) => RestoreConfined(file, r);
      case Snapshots(files) => FilesConfined(files, r);
    }
    assert RequiredPath(CloudInit, r.backend) && (r.backend.IfupdownBackend? ==> RequiredPath(Managed, r.backend));
    assert RequiredPath(if r.backend.SystemdNetworkd? then Networkd else Main, r.backend);
  }

  lemma IdentityMeans(id: string)
    ensures IsIdentity(id) <==> |id| == 64 && forall c <- id :: c in "0123456789abcdef"
  {
    forall c ensures c in "0123456789abcdef" <==> '0' <= c <= '9' || 'a' <= c <= 'f' { HexDigit(c); }
  }

  lemma HexDigit(c: char)
    ensures c in "0123456789abcdef" <==> '0' <= c <= '9' || 'a' <= c <= 'f'
  {
    assert "0123456789abcdef" == ['0', '1', '2', '3', '4', '5', '6', '7', '8', '9', 'a', 'b', 'c', 'd', 'e', 'f'];
  }

  lemma RestoreConfined(x: Snapshot, r: Record)
    requires AllowedPath(x.path, r.backend) && ValidSnapshot(x)
    ensures forall step <- RestoreSteps(x) :: StepConfined(step, r)
  {
  }

  lemma {:induction false} FilesConfined(files: seq<Snapshot>, r: Record)
    requires forall x <- files :: AllowedPath(x.path, r.backend) && ValidSnapshot(x)
    ensures forall step <- RestoreFiles(files) :: StepConfined(step, r)
  {
    hide AllowedPath, ValidSnapshot, RestoreSteps, StepConfined;
    if files != [] {
      assert files[0] in files && forall x <- files[1..] :: x in files;
      RestoreConfined(files[0], r);
      FilesConfined(files[1..], r);
    }
  }

  ghost predicate IsRun(w: World, events: seq<Event>)
    decreases |events|
  {
    events != [] ==> Enabled(w, events[0]) && IsRun(Apply(w, events[0]), events[1..])
  }

  ghost function After(w: World, events: seq<Event>): World
    requires IsRun(w, events)
    decreases |events|
  {
    if events == [] then w else After(Apply(w, events[0]), events[1..])
  }

  lemma OneStep(w: World, a: Event)
    requires Enabled(w, a)
    ensures IsRun(w, [a]) && After(w, [a]) == Apply(w, a)
  {
    hide Enabled, Apply;
    assert IsRun(Apply(w, a), []) && [a][1..] == [];
  }

  lemma TwoEvents(w: World, a: Event, b: Event)
    requires Enabled(w, a) && Enabled(Apply(w, a), b)
    ensures IsRun(w, [a, b]) && After(w, [a, b]) == Apply(Apply(w, a), b)
  {
    hide Enabled, Apply;
    OneStep(Apply(w, a), b);
    assert [a, b][1..] == [b];
  }

  lemma ThreeEvents(w: World, a: Event, b: Event, c: Event)
    requires Enabled(w, a) && Enabled(Apply(w, a), b) && Enabled(Apply(Apply(w, a), b), c)
    ensures IsRun(w, [a, b, c]) && After(w, [a, b, c]) == Apply(Apply(Apply(w, a), b), c)
  {
    hide Enabled, Apply;
    TwoEvents(Apply(w, a), b, c);
    assert [a, b, c][1..] == [b, c];
  }

  lemma FourEvents(w: World, a: Event, b: Event, c: Event, d: Event)
    requires Enabled(w, a) && Enabled(Apply(w, a), b) && Enabled(Apply(Apply(w, a), b), c)
    requires Enabled(Apply(Apply(Apply(w, a), b), c), d)
    ensures IsRun(w, [a, b, c, d]) && After(w, [a, b, c, d]) == Apply(Apply(Apply(Apply(w, a), b), c), d)
  {
    hide Enabled, Apply;
    ThreeEvents(Apply(w, a), b, c, d);
    assert [a, b, c, d][1..] == [b, c, d];
  }

  // -------------------------------------------------------------------- invariant

  /** The record describes the prepare `o`, and everything it changed is within its reach. */
  ghost predicate PendingAs(w: World, r: Record, o: Origin) {
    && Capturing(o.base, o.job) && WellFormed(o.base) && o.job.cloudInit == w.cloudInit && IsIdentity(r.id)
    && ValidSettings(o.job.settings) && Matches(o.goals, o.job.settings) && o.goals.Chosen(o.live)
    && r == RecordOf(r.id, r.committed, o.job, o.goals, Log(o.base, o.job))
    && InReach(w.store, o.base, o.job) && LiveUnderway(w.live, o.live, o.goals)
  }

  /** A pending record describes the last prepare. Quantified, so that the verifier looks into it only on demand. */
  ghost predicate Pending(w: World) {
    w.record.Some? ==> w.origin.Some? && forall r, o | r == w.record.value && o == w.origin.value :: PendingAs(w, r, o)
  }

  lemma OpenPending(w: World)
    requires Pending(w) && w.record.Some?
    ensures w.origin.Some? && PendingAs(w, w.record.value, w.origin.value)
  {
    hide PendingAs;
  }

  lemma ClosePending(w: World)
    requires w.record.Some? && w.origin.Some? && PendingAs(w, w.record.value, w.origin.value)
    ensures Pending(w)
  {
    hide PendingAs;
  }

  /** What the record stands for. */
  lemma RecordMeans(w: World)
    requires Pending(w) && w.record.Some?
    ensures w.origin.Some? && Capturing(w.origin.value.base, w.origin.value.job)
    ensures var r, o := w.record.value, w.origin.value;
            r.interface == o.job.interface && GoalsFrom(r) == o.goals
            && PersistOf(r, w.cloudInit) == PersistSteps(o.base, o.job) && UndoOf(r) == UndoSteps(o.base, o.job)
  {
    hide Capturing, WellFormed, InReach, LiveUnderway, Goals.Chosen, PersistProgram, RestoreProgram, Capture,
      IsIdentity;
    OpenPending(w);
    var r, o := w.record.value, w.origin.value;
    LoadedGoals(r.id, r.committed, o.job, o.goals, o.live, Log(o.base, o.job));
  }

  lemma PrepareKeepsPending(w: World, e: Event)
    requires Enabled(w, e) && e.Prepare?
    ensures Pending(Apply(w, e))
  {
    hide Capturing, WellFormed, Goals.Chosen, LiveSteps, RunLive, LiveUnderway, Log;
    StartedIsUnderway(w.live, e.goals, e.done);
    BaseInReach(w.store, e.job);
    ClosePending(Apply(w, e));
  }

  /** The store moves within reach, the live state stays underway, and the record keeps its meaning. */
  lemma PendingMoves(w: World, t: World)
    requires Pending(w) && w.record.Some? && t.origin.Some? && t.cloudInit == w.cloudInit
    requires t.record.Some? ==> t.record.value == w.record.value.(committed := t.record.value.committed)
    requires var o, p := w.origin.value, t.origin.value; p == o.(undone := p.undone)
    requires InReach(t.store, w.origin.value.base, w.origin.value.job)
    requires LiveUnderway(t.live, w.origin.value.live, w.origin.value.goals)
    ensures Pending(t)
  {
    hide Capturing, WellFormed, Goals.Chosen, LiveUnderway, InReach, Log, IsIdentity, ValidSettings, Matches;
    OpenPending(w);
    if t.record.Some? { ClosePending(t); }
  }

  lemma PersistInReach(s: Store, o: Origin, done: nat)
    requires Capturing(o.base, o.job) && InReach(s, o.base, o.job) && done <= |PersistSteps(o.base, o.job)|
    ensures InReach(Exec(s, PersistSteps(o.base, o.job), done, o.job.interface), o.base, o.job)
  {
    hide *;
    PersistIsTame(o.base, o.job);
    TameStaysInReach(s, o.base, o.job, PersistSteps(o.base, o.job), done);
  }

  lemma UndoInReach(s: Store, o: Origin, done: nat)
    requires Capturing(o.base, o.job) && InReach(s, o.base, o.job) && done <= |UndoSteps(o.base, o.job)|
    ensures InReach(Exec(s, UndoSteps(o.base, o.job), done, o.job.interface), o.base, o.job)
  {
    hide *;
    UndoIsTame(o.base, o.job);
    TameStaysInReach(s, o.base, o.job, UndoSteps(o.base, o.job), done);
  }

  lemma PendingParts(w: World)
    requires Pending(w) && w.record.Some?
    ensures w.origin.Some?
    ensures var o := w.origin.value;
            Capturing(o.base, o.job) && WellFormed(o.base) && o.goals.Chosen(o.live)
            && InReach(w.store, o.base, o.job) && LiveUnderway(w.live, o.live, o.goals)
  {
    hide Capturing, WellFormed, Goals.Chosen, LiveUnderway, InReach, Log, IsIdentity, ValidSettings, Matches;
    OpenPending(w);
  }

  lemma CommitKeepsPending(w: World, done: nat, restored: nat)
    requires Pending(w) && w.record.Some?
    requires done <= |PersistOf(w.record.value, w.cloudInit)| + 1 && restored <= |UndoOf(w.record.value)|
    ensures Pending(Committed(w, done, restored))
  {
    hide Pending, Capturing, InReach, LiveUnderway, Exec, ExecAll, PersistOf, UndoOf, PersistSteps, UndoSteps,
      WellFormed, GoalsFrom;
    PendingParts(w);
    RecordMeans(w);
    var o, t := w.origin.value, Committed(w, done, restored);
    if !w.record.value.committed {
      var program := PersistSteps(o.base, o.job);
      if done == |program| + 1 {
        PersistInReach(w.store, o, |program|);
        ExecAllIs(w.store, program, o.job.interface);
      } else {
        PersistInReach(w.store, o, done);
        UndoInReach(Exec(w.store, program, done, o.job.interface), o, restored);
      }
      PendingMoves(w, t);
    }
  }

  lemma AbortKeepsPending(w: World, done: nat, refused: set<LiveStep>)
    requires Pending(w) && w.record.Some? && done <= AbortLength(w.record.value)
    ensures Pending(Aborted(w, done, refused))
  {
    hide Pending, Capturing, InReach, LiveUnderway, Exec, ExecAll, PersistOf, UndoOf, PersistSteps, UndoSteps,
      WellFormed, GoalsFrom, LiveUndo, RunLive, Goals.Chosen, Harmless;
    PendingParts(w);
    RecordMeans(w);
    var o, t := w.origin.value, Aborted(w, done, refused);
    var undo, live := UndoSteps(o.base, o.job), LiveUndo(o.goals);
    if done < |undo| {
      UndoInReach(w.store, o, done);
    } else {
      UndoInReach(w.store, o, |undo|);
      ExecAllIs(w.store, undo, o.job.interface);
      UndoIsHarmless(o.goals);
      var k := if done - |undo| <= |live| then done - |undo| else |live|;
      HarmlessStaysUnderway(w.live, o.live, o.goals, live, k, refused);
    }
    PendingMoves(w, t);
  }

  lemma NoRecordIsPending(w: World)
    requires w.record.None?
    ensures Pending(w)
  {
  }

  lemma StepKeepsPending(w: World, e: Event)
    requires Pending(w) && Enabled(w, e)
    ensures Pending(Apply(w, e))
  {
    hide Pending, Accepts, Committed, Aborted, PersistOf, UndoOf, AbortLength, Capturing, WellFormed;
    match e {
      case Prepare(_, _, _, _) => PrepareKeepsPending(w, e);
      case Commit(expected, done, restored) => if Loads(w, expected) { CommitKeepsPending(w, done, restored); }
      case Abort(expected, done, refused) => if Loads(w, expected) { AbortKeepsPending(w, done, refused); }
      case Finalize(_) => if Apply(w, e).record.None? { NoRecordIsPending(Apply(w, e)); }
    }
  }

  lemma {:induction false} RunKeepsPending(w: World, events: seq<Event>)
    requires Pending(w) && IsRun(w, events)
    ensures Pending(After(w, events))
    decreases |events|
  {
    hide Pending, Enabled, Apply;
    if events != [] {
      StepKeepsPending(w, events[0]);
      RunKeepsPending(Apply(w, events[0]), events[1..]);
    }
  }

  // -------------------------------------------------------------- abort restores

  /** The pending record loads unless its connection name is not printable. */
  lemma PendingLoads(w: World, expected: Option<string>)
    requires Pending(w) && w.record.Some? && (expected.Some? ==> expected.value == w.record.value.id)
    ensures Loads(w, expected)
       <==> (w.origin.value.job.backend.NetworkManager? ==> Printable(w.origin.value.job.connection))
  {
    hide Capturing, WellFormed, InReach, LiveUnderway, Goals.Chosen, Accepts, Printable, IsIdentity, ValidSettings,
      Matches, Log;
    OpenPending(w);
    var r, o := w.record.value, w.origin.value;
    RecordAcceptedExactlyWhen(r.id, r.committed, o.base, o.live, o.job, o.goals);
  }

  /**
   From every state a run reaches, whatever prefixes of prepare, commit and abort it
   holds, an abort that loads the record and completes puts the persistent
   configuration back, exactly when the captured files have no carriage return and no
   other file has changed (none has where no backup of a rewritten file dangles),
   and the live state, exactly when no undo command with something to remove is refused.
   */
  lemma AbortRestores(start: World, events: seq<Event>, expected: Option<string>, refused: set<LiveStep>)
    requires start.record.None? && IsRun(start, events)
    requires var w := After(start, events); w.record.Some? && Loads(w, expected)
    ensures After(start, events).origin.Some?
    ensures var w := After(start, events);
            var o, t := w.origin.value, Apply(w, Abort(expected, AbortLength(w.record.value), refused));
            var captured := CapturedPaths(o.job.backend, o.base.files);
            && Capturing(o.base, o.job) && t.record.None?
            && (Contained(o.base, o.job) ==> AgreeOutside(w.store.files, o.base.files, captured))
            && (AgreeOutside(w.store.files, o.base.files, captured) ==> t.store == Restored(o.base, o.job))
            && (t.store == o.base <==>
                  NoCarriageReturns(o.base.files, captured) && AgreeOutside(w.store.files, o.base.files, captured))
            && (t.live == o.live <==> !LeavesResidue(w.live, o.goals, refused))
  {
    hide Pending, Capturing, InReach, LiveUnderway, Exec, ExecAll, PersistOf, UndoOf, PersistSteps, UndoSteps,
      WellFormed, GoalsFrom, LiveUndo, RunLive, Goals.Chosen, Accepts, Restored, NoCarriageReturns, LeavesResidue,
      IsRun, After, AgreeOutside, Contained, CapturedPaths, ConnectionsWithin, JobScope;
    var w := After(start, events);
    NoRecordIsPending(start);
    RunKeepsPending(start, events);
    PendingParts(w);
    RecordMeans(w);
    var o := w.origin.value;
    ReachConnections(w.store, o.base, o.job);
    if Contained(o.base, o.job) { ReachFiles(w.store, o.base, o.job); }
    UndoEnds(w.store, o.base, o.job);
    LiveUndoIsExact(w.live, o.live, o.goals, refused);
  }

  /**
   A commit that fails at any step and rolls back to the end leaves the record, the live state and,
   under the same exact condition, the configuration from before the prepare.
   */
  lemma FailedCommitRestores(start: World, events: seq<Event>, expected: Option<string>, done: nat)
    requires start.record.None? && IsRun(start, events)
    requires var w := After(start, events);
             && w.record.Some? && Loads(w, expected) && !w.record.value.committed
             && done <= |PersistOf(w.record.value, w.cloudInit)|
    ensures After(start, events).origin.Some?
    ensures var w := After(start, events);
            var o, t := w.origin.value, Apply(w, Commit(expected, done, |UndoOf(w.record.value)|));
            && Capturing(o.base, o.job) && t.record == w.record && t.live == w.live
            && (Contained(o.base, o.job) ==>
                  && t.store == Restored(o.base, o.job)
                  && (t.store == o.base <==>
                        NoCarriageReturns(o.base.files, CapturedPaths(o.job.backend, o.base.files))))
  {
    hide Pending, Capturing, InReach, LiveUnderway, Exec, ExecAll, PersistOf, UndoOf, PersistSteps, UndoSteps,
      WellFormed, GoalsFrom, Goals.Chosen, Accepts, Restored, NoCarriageReturns, IsRun, After, AgreeOutside, Contained,
      CapturedPaths, ConnectionsWithin, JobScope;
    var w := After(start, events);
    NoRecordIsPending(start);
    RunKeepsPending(start, events);
    PendingParts(w);
    RecordMeans(w);
    var o := w.origin.value;
    var s := Exec(w.store, PersistSteps(o.base, o.job), done, o.job.interface);
    PersistInReach(w.store, o, done);
    ReachConnections(s, o.base, o.job);
    if Contained(o.base, o.job) { ReachFiles(s, o.base, o.job); }
    UndoEnds(s, o.base, o.job);
    ExecAllIs(s, UndoSteps(o.base, o.job), o.job.interface);
  }

  /** Undisturbed, prepare, commit and finalize leave no record, the persisted configuration and started families. */
  lemma TransitionCompletes(w: World, id: string, job: Job, goals: Goals) returns (events: seq<Event>)
    requires Enabled(w, Prepare(id, job, goals, |LiveSteps(goals)|))
    requires job.backend.NetworkManager? ==> Printable(job.connection)
    ensures IsRun(w, events) && events == [
              Prepare(id, job, goals, |LiveSteps(goals)|), Commit(Some(id), |PersistSteps(w.store, job)| + 1, 0),
              Finalize(Some(id))]
    ensures var t := After(w, events);
            && t.record.None? && t.store == ExecAll(w.store, PersistSteps(w.store, job), job.interface)
            && (forall v :: Started(FamilyOf(t.live, v), FamilyOf(w.live, v),
                                    goals.Of(v).address, goals.Of(v).gateway, goals.Of(v).table))
  {
    hide Pending, Capturing, WellFormed, Goals.Chosen, LiveSteps, RunLive, Log, IsIdentity, ValidSettings, Matches,
      PersistSteps, PersistOf, UndoOf, ExecAll, Exec, Accepts, Started, Printable;
    var prepare := Prepare(id, job, goals, |LiveSteps(goals)|);
    var w1 := Apply(w, prepare);
    PrepareKeepsPending(w, prepare);
    RecordMeans(w1);
    PendingLoads(w1, Some(id));
    var commit := Commit(Some(id), |PersistSteps(w.store, job)| + 1, 0);
    var w2 := Apply(w1, commit);
    StepKeepsPending(w1, commit);
    PendingLoads(w2, Some(id));
    events := [prepare, commit, Finalize(Some(id))];
    ThreeEvents(w, prepare, commit, Finalize(Some(id)));
    forall v
      ensures Started(FamilyOf(After(w, events).live, v), FamilyOf(w.live, v),
                      goals.Of(v).address, goals.Of(v).gateway, goals.Of(v).table)
    {
      LiveStepsStart(w.live, goals, |LiveSteps(goals)|, v);
    }
  }

  // -------------------------------------------------------------------- atomicity

  /** Where one uninterrupted persist from the base ends. */
  ghost function PersistedStore(o: Origin): Store
    requires Capturing(o.base, o.job)
  {
    ExecAll(o.base, PersistSteps(o.base, o.job), o.job.interface)
  }

  /** What of the new configuration stays once some of it has been undone: each path old or new, or a removed link. */
  ghost predicate Mixed(s: Store, o: Origin)
    requires Capturing(o.base, o.job)
  {
    && o.undone.paths <= AsSet(o.job.listing)
    && (forall p :: MixedAt(s.files, o.base.files, PersistedStore(o).files, p, o.undone.paths))
    && s.connections == if o.undone.properties then o.base.connections else PersistedStore(o).connections
  }

  ghost predicate MixedAt(files: Files, oldFiles: Files, newFiles: Files, p: Path, undone: set<Path>) {
    if p in undone then At(files, p) == At(oldFiles, p) || (p in oldFiles && oldFiles[p].Link? && p !in files)
    else At(files, p) == At(newFiles, p)
  }

  /** A transition that can still go either way; once committed, what has not been undone has been persisted. */
  ghost predicate CourseOf(w: World, r: Record, o: Origin) {
    && Capturing(o.base, o.job) && Steady(o.base, o.job)
    && (if r.committed then Mixed(w.store, o)
        else CanResume(w.store, o.base, o.job) && o.undone.paths <= AsSet(o.job.listing))
  }

  ghost predicate OnCourse(w: World) {
    w.record.Some? && w.origin.Some? ==> forall r, o | r == w.record.value && o == w.origin.value :: CourseOf(w, r, o)
  }

  /** What is left without a record: all of a steady base's transition that has not been undone. */
  ghost predicate SettledAs(w: World, o: Origin) {
    Capturing(o.base, o.job) && Steady(o.base, o.job) && Mixed(w.store, o)
  }

  ghost predicate Settled(w: World) {
    w.record.None? && w.origin.Some? ==> forall o | o == w.origin.value :: SettledAs(w, o)
  }

  /** The old configuration or the fully persisted new one. */
  ghost predicate OldOrNew(s: Store, o: Origin) {
    Capturing(o.base, o.job) && (s == o.base || s == PersistedStore(o))
  }

  /** Without a record the configuration is all old or all new. */
  ghost predicate AllOrNothing(w: World) {
    w.record.None? && w.origin.Some? ==> forall o | o == w.origin.value :: OldOrNew(w.store, o)
  }

  /** No link in the record's snapshots is missing, but for the files a persist writes anyway. */
  ghost predicate LinksStand(files: Files, r: Record) {
    r.backend.IfupdownBackend? && r.rollback.Snapshots? ==>
      forall x <- r.rollback.files | x.Target? && !x.path.Managed? && !x.path.CloudInit? :: x.path in files
  }

  /** Prepared on a steady base, and a commit started only while no captured link is missing. */
  ghost predicate Careful(w: World, e: Event)
    requires Enabled(w, e)
  {
    && (e.Prepare? ==> Steady(w.store, e.job))
    && (e.Commit? && Loads(w, e.expected) && !w.record.value.committed ==> LinksStand(w.store.files, w.record.value))
  }

  /** Careful, and finalized only while no abort of the commit has begun. */
  ghost predicate Orderly(w: World, e: Event)
    requires Enabled(w, e)
  {
    && Careful(w, e)
    && (e.Finalize? && Loads(w, e.expected) && w.record.value.committed && w.origin.Some? ==>
          w.origin.value.undone == NOTHING)
  }

  lemma StandingLinks(w: World)
    requires Pending(w) && w.record.Some? && LinksStand(w.store.files, w.record.value)
    ensures w.origin.Some? && Capturing(w.origin.value.base, w.origin.value.job)
    ensures LinksInPlace(w.store.files, w.origin.value.base, w.origin.value.job)
  {
    hide Capturable, IsListing, WellFormed, InReach, LiveUnderway, Goals.Chosen, IsIdentity, ValidSettings, Matches;
    OpenPending(w);
    var o, snaps := w.origin.value, Snaps(w.origin.value.base.files, w.origin.value.job.listing);
    if o.job.backend.IfupdownBackend? {
      forall p <- o.job.listing | p in o.base.files && o.base.files[p].Link? && !p.Managed? && !p.CloudInit?
        ensures p in w.store.files
      {
        var i :| 0 <= i < |o.job.listing| && o.job.listing[i] == p;
        assert snaps[i] in snaps && snaps[i] == Target(p, o.base.files[p].target);
      }
    }
  }

  lemma PrepareKeepsCourse(w: World, e: Event)
    requires Enabled(w, e) && e.Prepare? && Careful(w, e)
    ensures Pending(Apply(w, e)) && OnCourse(Apply(w, e))
  {
    hide Pending, Capturing, WellFormed, Goals.Chosen, LiveSteps, RunLive, Log, Steady, CanResume, PersistedStore,
      Mixed;
    PrepareKeepsPending(w, e);
    BaseCanResume(w.store, e.job);
  }

  lemma CourseParts(w: World)
    requires Pending(w) && w.record.Some? && OnCourse(w)
    ensures w.origin.Some? && CourseOf(w, w.record.value, w.origin.value)
    ensures Capturing(w.origin.value.base, w.origin.value.job) && Steady(w.origin.value.base, w.origin.value.job)
  {
    hide PendingAs, Steady, CanResume, Mixed;
    PendingParts(w);
    assert CourseOf(w, w.record.value, w.origin.value);
  }

  lemma PersistedIsMixed(o: Origin)
    requires Capturing(o.base, o.job)
    ensures Mixed(PersistedStore(o), o.(undone := NOTHING))
  {
    hide Capturing, ExecAll, PersistSteps;
  }

  lemma MixedIsPersisted(s: Store, o: Origin)
    requires Capturing(o.base, o.job) && Mixed(s, o) && o.undone == NOTHING
    ensures s == PersistedStore(o)
  {
    hide Capturing, ExecAll, PersistSteps;
    forall p ensures At(s.files, p) == At(PersistedStore(o).files, p) {
      assert MixedAt(s.files, o.base.files, PersistedStore(o).files, p, o.undone.paths);
    }
    SameAt(s.files, PersistedStore(o).files);
  }

  lemma CommitKeepsCourse(w: World, done: nat, restored: nat)
    requires Pending(w) && w.record.Some? && OnCourse(w)
    requires !w.record.value.committed ==> LinksStand(w.store.files, w.record.value)
    requires done <= |PersistOf(w.record.value, w.cloudInit)| + 1 && restored <= |UndoOf(w.record.value)|
    ensures Pending(Committed(w, done, restored)) && OnCourse(Committed(w, done, restored))
  {
    hide Pending, Capturing, Exec, ExecAll, PersistOf, UndoOf, PersistSteps, UndoSteps, Steady, CanResume, Mixed,
      LinksStand, LinksInPlace;
    CommitKeepsPending(w, done, restored);
    CourseParts(w);
    RecordMeans(w);
    var o := w.origin.value;
    if !w.record.value.committed {
      var program := PersistSteps(o.base, o.job);
      StandingLinks(w);
      if done == |program| + 1 {
        ResumeEnds(w.store, o.base, o.job);
        PersistedIsMixed(o);
      } else {
        PersistKeepsResume(w.store, o.base, o.job, done);
        UndoKeepsResume(Exec(w.store, program, done, o.job.interface), o.base, o.job, restored);
      }
    }
  }

  // ------------------------------------------------------- undoing what was persisted

  /** A restore step puts its path to what it is in the base, or removes a link of the base. */
  ghost predicate Reverts(step: Step, base: Store, job: Job) {
    match step
    case Write(p, content, mode) => p in job.listing && At(base.files, p) == Some(File(content, mode))
    case Unlink(p) => p in job.listing && (p in base.files ==> base.files[p].Link?)
    case Symlink(p, t) => p in job.listing && At(base.files, p) == Some(Link(t))
    case Modify(connection, changes) =>
      && job.backend.NetworkManager? && connection == job.connection && connection in base.connections
      && ROLLBACK_PROPERTIES <= base.connections[connection].Keys
      && changes == map p <- ROLLBACK_PROPERTIES :: base.connections[connection][p]
    case _ => false
  }

  lemma OneRestoreReverts(base: Store, job: Job, p: Path)
    requires p in job.listing && (p in base.files ==> !base.files[p].Directory?)
    requires p in base.files && base.files[p].File? ==> '\r' !in base.files[p].content
    ensures forall step <- RestoreSteps(Snap(base.files, p)) :: Reverts(step, base, job)
  {
    if p in base.files && base.files[p].File? { UniversalExact(base.files[p].content); }
  }

  lemma {:induction false} RestoresRevert(base: Store, job: Job, i: nat)
    requires i <= |job.listing| && Restorable(base.files, job.listing)
    ensures forall step <- RestoreFiles(SnapsFrom(base.files, job.listing, i)) :: Reverts(step, base, job)
    decreases |job.listing| - i
  {
    hide Reverts, Snap, RestoreSteps;
    var listing, snaps := job.listing, SnapsFrom(base.files, job.listing, i);
    if i < |listing| {
      assert listing[i] in listing && snaps[0] == Snap(base.files, listing[i]);
      assert snaps[1..] == SnapsFrom(base.files, listing, i + 1);
      OneRestoreReverts(base, job, listing[i]);
      RestoresRevert(base, job, i + 1);
    } else {
      assert snaps == [];
    }
  }

  lemma UndoReverts(base: Store, job: Job)
    requires Capturing(base, job) && Steady(base, job)
    ensures forall step <- UndoSteps(base, job) :: Reverts(step, base, job)
  {
    hide Steady, UndoSteps, RestoreFiles, SnapsFrom, IsListing, CapturedPaths, Rewritable, BackupsLead, Restorable;
    SteadyRestorable(base, job);
    RestoresRevert(base, job, 0);
    if job.backend.NetworkManager? { UndoIsModify(base, job); } else { UndoIsRestore(base, job); }
  }

  lemma RevertedAt(
    files: Files, step: Step, base: Store, job: Job, interface: string, newFiles: Files, p: Path, undone: set<Path>)
    requires Reverts(step, base, job) && !step.Modify? && MixedAt(files, base.files, newFiles, p, undone)
    ensures MixedAt(FileEffect(files, step, interface), base.files, newFiles, p, undone + Written(step))
  {
  }

  lemma StepKeepsMixed(s: Store, o: Origin, step: Step)
    requires Capturing(o.base, o.job) && Mixed(s, o) && InReach(s, o.base, o.job) && Reverts(step, o.base, o.job)
    ensures Mixed(Effect(s, step, o.job.interface),
                  o.(undone := Undone(o.undone.paths + Written(step), o.undone.properties || step.Modify?)))
  {
    hide Capturing, ExecAll, PersistSteps, FileEffect, MixedAt, Sound, AgreeOutside;
    var newFiles := PersistedStore(o).files;
    if step.Modify? {
      ModifyRestores(s, o.base, o.job.connection, step.changes);
      assert o.undone.paths + Written(step) == o.undone.paths;
    } else {
      assert Written(step) <= AsSet(o.job.listing) by { RevertsListed(step, o.base, o.job); }
      forall p
        ensures MixedAt(FileEffect(s.files, step, o.job.interface), o.base.files, newFiles, p,
                        o.undone.paths + Written(step))
      {
        RevertedAt(s.files, step, o.base, o.job, o.job.interface, newFiles, p, o.undone.paths);
      }
    }
  }

  lemma RevertsListed(step: Step, base: Store, job: Job)
    requires Reverts(step, base, job)
    ensures Written(step) <= AsSet(job.listing)
  {
  }

  /** An abort that is stopped anywhere leaves what its steps have not yet undone. */
  lemma {:induction false} UndoKeepsMixed(s: Store, o: Origin, k: nat)
    requires Capturing(o.base, o.job) && Steady(o.base, o.job) && Mixed(s, o) && InReach(s, o.base, o.job)
    requires k <= |UndoSteps(o.base, o.job)|
    ensures var undo := UndoSteps(o.base, o.job);
            Mixed(Exec(s, undo, k, o.job.interface), o.(undone := Undoing(o.undone, undo, k)))
  {
    hide Capturing, Steady, UndoSteps, Mixed, InReach, Effect, Reverts;
    if k > 0 {
      var undo := UndoSteps(o.base, o.job);
      UndoKeepsMixed(s, o, k - 1);
      UndoInReach(s, o, k - 1);
      UndoReverts(o.base, o.job);
      assert undo[k - 1] in undo;
      StepKeepsMixed(Exec(s, undo, k - 1, o.job.interface), o.(undone := Undoing(o.undone, undo, k - 1)), undo[k - 1]);
    }
  }

  lemma {:induction false} UndoingCovers(u: Undone, undo: seq<Step>, k: nat)
    requires k <= |undo|
    ensures u.paths <= Undoing(u, undo, k).paths && (u.properties ==> Undoing(u, undo, k).properties)
    ensures forall i | 0 <= i < k :: Written(undo[i]) <= Undoing(u, undo, k).paths
    ensures forall i | 0 <= i < k && undo[i].Modify? :: Undoing(u, undo, k).properties
  {
    if k > 0 { UndoingCovers(u, undo, k - 1); }
  }

  lemma {:induction false} RestoresCover(base: Files, listing: seq<Path>, i: nat, p: Path)
    requires i <= |listing| && (forall q <- listing | q in base :: !base[q].Directory?) && p in listing[i..]
    ensures exists step <- RestoreFiles(SnapsFrom(base, listing, i)) :: p in Written(step)
    decreases |listing| - i
  {
    var snaps := SnapsFrom(base, listing, i);
    assert listing[i] in listing && snaps[0] == Snap(base, listing[i]) && snaps[1..] == SnapsFrom(base, listing, i + 1);
    if p == listing[i] {
      assert RestoreFiles(snaps)[0] in RestoreFiles(snaps) && p in Written(RestoreFiles(snaps)[0]);
    } else {
      RestoresCover(base, listing, i + 1, p);
      var step :| step in RestoreFiles(snaps[1..]) && p in Written(step);
      assert step in RestoreFiles(snaps);
    }
  }

  lemma AllUndone(u: Undone, base: Store, job: Job)
    requires Capturing(base, job)
    ensures var undo := UndoSteps(base, job);
            && AsSet(job.listing) <= Undoing(u, undo, |undo|).paths
            && (job.backend.NetworkManager? ==> Undoing(u, undo, |undo|).properties)
  {
    hide UndoSteps, RestoreFiles, SnapsFrom, CapturedPaths, IsListing, Rewritable, BackupsLead, Undoing, Written;
    var undo, rest := UndoSteps(base, job), RestoreFiles(SnapsFrom(base.files, job.listing, 0));
    UndoingCovers(u, undo, |undo|);
    if job.backend.NetworkManager? {
      UndoIsModify(base, job);
      assert undo[0].Modify?;
    } else {
      UndoIsRestore(base, job);
    }
    assert forall step <- rest :: step in undo;
    forall p <- job.listing
      ensures p in Undoing(u, undo, |undo|).paths
    {
      assert job.listing[0..] == job.listing;
      RestoresCover(base.files, job.listing, 0, p);
      var step :| step in rest && p in Written(step);
      var i :| 0 <= i < |undo| && undo[i] == step;
    }
  }

  lemma {:induction false} UndoingListed(u: Undone, base: Store, job: Job, k: nat)
    requires Capturing(base, job) && Steady(base, job) && k <= |UndoSteps(base, job)| && u.paths <= AsSet(job.listing)
    ensures Undoing(u, UndoSteps(base, job), k).paths <= AsSet(job.listing)
  {
    hide Capturing, Steady, UndoSteps, Reverts, Written;
    if k > 0 {
      UndoingListed(u, base, job, k - 1);
      UndoReverts(base, job);
      assert UndoSteps(base, job)[k - 1] in UndoSteps(base, job);
      RevertsListed(UndoSteps(base, job)[k - 1], base, job);
    }
  }

  lemma PersistedInReach(o: Origin)
    requires Capturing(o.base, o.job)
    ensures InReach(PersistedStore(o), o.base, o.job)
  {
    hide *;
    BaseInReach(o.base, o.job);
    PersistInReach(o.base, o, |PersistSteps(o.base, o.job)|);
    PersistedIs(o);
  }

  lemma PersistedIs(o: Origin)
    requires Capturing(o.base, o.job)
    ensures PersistedStore(o)
            == Exec(o.base, PersistSteps(o.base, o.job), |PersistSteps(o.base, o.job)|, o.job.interface)
  {
    hide Capturing, Exec, PersistSteps;
  }

  /** The base is what is left when everything has been undone. */
  lemma BaseIsMixed(o: Origin)
    requires Capturing(o.base, o.job) && Contained(o.base, o.job) && o.undone.paths == AsSet(o.job.listing)
    requires o.job.backend.NetworkManager? ==> o.undone.properties
    ensures Mixed(o.base, o)
  {
    hide ExecAll, PersistSteps, Sound, Contained, CapturedPaths, Capturable;
    PersistedInReach(o);
    ReachFiles(PersistedStore(o), o.base, o.job);
    var newFiles := PersistedStore(o).files;
    forall p ensures MixedAt(o.base.files, o.base.files, newFiles, p, o.undone.paths) {
      if p !in o.undone.paths { assert p !in CapturedPaths(o.job.backend, o.base.files); }
    }
  }

  lemma AbortKeepsCourse(w: World, done: nat, refused: set<LiveStep>)
    requires Pending(w) && w.record.Some? && OnCourse(w) && done <= AbortLength(w.record.value)
    ensures var t := Aborted(w, done, refused);
            Pending(t) && OnCourse(t) && Settled(t)
              && (t.record.None? ==> t.origin.Some? && t.store == t.origin.value.base)
  {
    hide Pending, Capturing, Exec, ExecAll, PersistOf, UndoOf, PersistSteps, UndoSteps, Steady, CanResume, LiveUndo,
      RunLive, GoalsFrom, InReach, Restored, NoCarriageReturns, Mixed, Undoing, Contained, AgreeOutside,
      ConnectionsWithin, JobScope, CapturedPaths;
    AbortKeepsPending(w, done, refused);
    PendingParts(w);
    CourseParts(w);
    RecordMeans(w);
    var o := w.origin.value;
    var undo := UndoSteps(o.base, o.job);
    var k := Least(done, |undo|);
    ExecAllIs(w.store, undo, o.job.interface);
    var begun := o.(undone := Undoing(o.undone, undo, k));
    if w.record.value.committed {
      UndoKeepsMixed(w.store, o, k);
    } else {
      UndoKeepsResume(w.store, o.base, o.job, k);
      UndoingListed(o.undone, o.base, o.job, k);
    }
    if done >= |undo| {
      SteadyIsContained(o.base, o.job);
      ReachConnections(w.store, o.base, o.job);
      ReachFiles(w.store, o.base, o.job);
      UndoEnds(w.store, o.base, o.job);
      SteadyHasNoCarriageReturns(o.base, o.job);
      PersistedInReach(o);
      if !w.record.value.committed {
        AllUndone(o.undone, o.base, o.job);
        BaseIsMixed(begun);
      }
    }
  }

  lemma FinalizeKeepsCourse(w: World, expected: Option<string>)
    requires Pending(w) && w.record.Some? && OnCourse(w) && Loads(w, expected) && w.record.value.committed
    ensures Settled(Apply(w, Finalize(expected)))
    ensures Orderly(w, Finalize(expected)) ==> AllOrNothing(Apply(w, Finalize(expected)))
  {
    hide Pending, Accepts, Capturing, PersistedStore, Steady, CanResume, Mixed, InReach;
    CourseParts(w);
    PersistedInReach(w.origin.value);
    if w.origin.value.undone == NOTHING { MixedIsPersisted(w.store, w.origin.value); }
  }

  lemma StepKeepsCourse(w: World, e: Event)
    requires Pending(w) && OnCourse(w) && Settled(w) && Enabled(w, e) && Careful(w, e)
    ensures Pending(Apply(w, e)) && OnCourse(Apply(w, e)) && Settled(Apply(w, e))
    ensures AllOrNothing(w) && Orderly(w, e) ==> AllOrNothing(Apply(w, e))
  {
    hide Pending, Accepts, Committed, Aborted, PersistOf, UndoOf, AbortLength, Capturing, WellFormed, Steady,
      CanResume, PersistedStore, Mixed, InReach, LinksStand;
    match e {
      case Prepare(_, _, _, _) => PrepareKeepsCourse(w, e);
      case Commit(expected, done, restored) =>
        if Loads(w, expected) {
          CommitKeepsCourse(w, done, restored);
          CommitKeepsRecord(w, done, restored);
        }
      case Abort(expected, done, refused) =>
        if Loads(w, expected) {
          AbortKeepsCourse(w, done, refused);
          CourseParts(w);
          AbortedOrigin(w, done, refused);
        }
      case Finalize(expected) =>
        if Apply(w, e) != w {
          FinalizeKeepsCourse(w, expected);
          NoRecordIsPending(Apply(w, e));
        }
    }
  }

  lemma AbortedOrigin(w: World, done: nat, refused: set<LiveStep>)
    requires w.record.Some? && done <= AbortLength(w.record.value) && w.origin.Some?
    ensures var t := Aborted(w, done, refused);
            t.origin.Some? && t.origin.value == w.origin.value.(undone := t.origin.value.undone)
  {
    hide UndoOf, LiveUndo, GoalsFrom, RunLive, Exec, ExecAll;
  }

  lemma CommitKeepsRecord(w: World, done: nat, restored: nat)
    requires w.record.Some?
    requires done <= |PersistOf(w.record.value, w.cloudInit)| + 1 && restored <= |UndoOf(w.record.value)|
    ensures Committed(w, done, restored).record.Some?
  {
    hide PersistOf, UndoOf, Exec, ExecAll;
  }

  ghost predicate IsCarefulRun(w: World, events: seq<Event>)
    requires IsRun(w, events)
    decreases |events|
  {
    events != [] ==> Careful(w, events[0]) && IsCarefulRun(Apply(w, events[0]), events[1..])
  }

  ghost predicate IsOrderlyRun(w: World, events: seq<Event>)
    requires IsRun(w, events)
    decreases |events|
  {
    events != [] ==> Orderly(w, events[0]) && IsOrderlyRun(Apply(w, events[0]), events[1..])
  }

  lemma {:induction false} RunKeepsCourse(w: World, events: seq<Event>)
    requires Pending(w) && OnCourse(w) && Settled(w) && IsRun(w, events) && IsCarefulRun(w, events)
    ensures Pending(After(w, events)) && OnCourse(After(w, events)) && Settled(After(w, events))
    ensures AllOrNothing(w) && IsOrderlyRun(w, events) ==> AllOrNothing(After(w, events))
    decreases |events|
  {
    hide Pending, OnCourse, Settled, AllOrNothing, Enabled, Apply, Careful, Orderly;
    if events != [] {
      StepKeepsCourse(w, events[0]);
      RunKeepsCourse(Apply(w, events[0]), events[1..]);
    }
  }

  lemma {:induction false} OrderlyIsCareful(w: World, events: seq<Event>)
    requires IsRun(w, events) && IsOrderlyRun(w, events)
    ensures IsCarefulRun(w, events)
    decreases |events|
  {
    hide Enabled, Apply, Careful;
    if events != [] {
      OrderlyIsCareful(Apply(w, events[0]), events[1..]);
    }
  }

  /**
   Atomicity over all runs: for any sequence of calls, any step failing and the
   process killed anywhere, whenever no record exists the persistent configuration
   is exactly the one prepare found or the fully persisted new one; and a committed
   record stands for a complete persist until an abort of it begins.
   */
  lemma TransitionIsAtomic(start: World, events: seq<Event>)
    requires start.record.None? && start.origin.None? && IsRun(start, events) && IsOrderlyRun(start, events)
    ensures var w := After(start, events);
            && (w.origin.Some? ==> Capturing(w.origin.value.base, w.origin.value.job))
            && (w.record.None? && w.origin.Some? ==>
                w.store == w.origin.value.base || w.store == PersistedStore(w.origin.value))
            && (w.record.Some? ==> w.origin.Some?)
            && (w.record.Some? && w.record.value.committed && w.origin.value.undone == NOTHING ==>
                  w.store == PersistedStore(w.origin.value))
  {
    hide Pending, PersistedStore, Capturing, IsRun, After, IsOrderlyRun, IsCarefulRun, Steady, Mixed, CanResume;
    NoRecordIsPending(start);
    OrderlyIsCareful(start, events);
    RunKeepsCourse(start, events);
    var w := After(start, events);
    if w.record.Some? {
      PendingParts(w);
      CourseParts(w);
      if w.record.value.committed && w.origin.value.undone == NOTHING { MixedIsPersisted(w.store, w.origin.value); }
    } else if w.origin.Some? {
      assert OldOrNew(w.store, w.origin.value);
    }
  }

  // ------------------------------------- finalizing a half-aborted committed record

  ghost predicate SameOn(a: Files, b: Files, paths: set<Path>) {
    forall p <- paths :: At(a, p) == At(b, p)
  }

  /** No link of the base among `paths` is missing. */
  ghost predicate LinksAreBack(files: Files, base: Files, paths: set<Path>) {
    forall p <- paths | p in base && base[p].Link? :: p in files
  }

  /** The old and the new configuration are the same in all that has been undone. */
  ghost predicate UndoneIsTheSame(o: Origin)
    requires Capturing(o.base, o.job)
  {
    && SameOn(PersistedStore(o).files, o.base.files, o.undone.paths)
    && (o.undone.properties ==> PersistedStore(o).connections == o.base.connections)
  }

  /** The old and the new configuration are the same in all that has not been undone. */
  ghost predicate RestIsTheSame(o: Origin)
    requires Capturing(o.base, o.job)
  {
    && SameOn(PersistedStore(o).files, o.base.files, AsSet(o.job.listing) - o.undone.paths)
    && (!o.undone.properties ==> PersistedStore(o).connections == o.base.connections)
  }

  lemma PersistedKeepsPaths(o: Origin)
    requires Capturing(o.base, o.job)
    ensures o.base.files.Keys <= PersistedStore(o).files.Keys
  {
    hide *;
    PersistOnlyPersists(o.base, o.job);
    PersistingStaysPut(PersistSteps(o.base, o.job));
    NothingRemoved(o.base, PersistSteps(o.base, o.job), |PersistSteps(o.base, o.job)|, o.job.interface);
    PersistedIs(o);
  }

  lemma PersistingStaysPut(program: seq<Step>)
    requires forall step <- program :: Persists(step)
    ensures forall step <- program :: !step.Unlink?
  {
  }

  lemma MixedFilesNew(files: Files, oldFiles: Files, newFiles: Files, undone: set<Path>)
    requires (forall p :: MixedAt(files, oldFiles, newFiles, p, undone)) && oldFiles.Keys <= newFiles.Keys
    ensures files == newFiles <==> LinksAreBack(files, oldFiles, undone) && SameOn(newFiles, oldFiles, undone)
  {
    if LinksAreBack(files, oldFiles, undone) && SameOn(newFiles, oldFiles, undone) {
      forall p ensures At(files, p) == At(newFiles, p) { assert MixedAt(files, oldFiles, newFiles, p, undone); }
      SameAt(files, newFiles);
    }
    if files == newFiles {
      forall p <- undone
        ensures At(newFiles, p) == At(oldFiles, p)
      {
        assert MixedAt(files, oldFiles, newFiles, p, undone);
      }
    }
  }

  lemma MixedFilesOld(files: Files, oldFiles: Files, newFiles: Files, undone: set<Path>, listed: set<Path>)
    requires (forall p :: MixedAt(files, oldFiles, newFiles, p, undone)) && AgreeOutside(newFiles, oldFiles, listed)
             && undone <= listed
    ensures files == oldFiles <==> LinksAreBack(files, oldFiles, undone) && SameOn(newFiles, oldFiles, listed - undone)
  {
    if LinksAreBack(files, oldFiles, undone) && SameOn(newFiles, oldFiles, listed - undone) {
      forall p ensures At(files, p) == At(oldFiles, p) {
        assert MixedAt(files, oldFiles, newFiles, p, undone);
        if p !in undone && p !in listed { assert At(newFiles, p) == At(oldFiles, p); }
      }
      SameAt(files, oldFiles);
    }
    if files == oldFiles {
      forall p <- listed - undone
        ensures At(newFiles, p) == At(oldFiles, p)
      {
        assert MixedAt(files, oldFiles, newFiles, p, undone);
      }
    }
  }

  /**
   What a half-done abort leaves is new, or old, exactly when no link is missing and what differs is
   gone, or stays.
   */
  lemma MixedExactlyWhen(s: Store, o: Origin)
    requires Capturing(o.base, o.job) && Contained(o.base, o.job) && Mixed(s, o)
    ensures s == PersistedStore(o) <==> LinksAreBack(s.files, o.base.files, o.undone.paths) && UndoneIsTheSame(o)
    ensures s == o.base <==> LinksAreBack(s.files, o.base.files, o.undone.paths) && RestIsTheSame(o)
  {
    hide ExecAll, PersistSteps, PersistedStore, Sound, Contained, CapturedPaths, Capturable, MixedAt, LinksAreBack,
      SameOn;
    PersistedInReach(o);
    ReachFiles(PersistedStore(o), o.base, o.job);
    var oldFiles, newFiles := o.base.files, PersistedStore(o).files;
    PersistedKeepsPaths(o);
    MixedFilesNew(s.files, oldFiles, newFiles, o.undone.paths);
    assert AsSet(o.job.listing) == CapturedPaths(o.job.backend, o.base.files);
    MixedFilesOld(s.files, oldFiles, newFiles, o.undone.paths, AsSet(o.job.listing));
  }

  /**
   Over all careful runs, whatever was aborted half way and then finalized: what remains
   without a record is the new configuration, or the old one, exactly under these
   conditions, for every backend.
   */
  lemma HalfAbortedExactlyWhen(start: World, events: seq<Event>)
    requires start.record.None? && start.origin.None? && IsRun(start, events) && IsCarefulRun(start, events)
    requires After(start, events).record.None? && After(start, events).origin.Some?
    ensures var w := After(start, events);
            var o := w.origin.value;
            && Capturing(o.base, o.job)
            && (w.store == PersistedStore(o) <==>
                  LinksAreBack(w.store.files, o.base.files, o.undone.paths) && UndoneIsTheSame(o))
            && (w.store == o.base <==> LinksAreBack(w.store.files, o.base.files, o.undone.paths) && RestIsTheSame(o))
  {
    hide Pending, PersistedStore, Capturing, IsRun, After, IsCarefulRun, Steady, Mixed, InReach, UndoneIsTheSame,
      RestIsTheSame, LinksAreBack, Contained;
    NoRecordIsPending(start);
    RunKeepsCourse(start, events);
    var w := After(start, events);
    assert SettledAs(w, w.origin.value);
    SteadyIsContained(w.origin.value.base, w.origin.value.job);
    MixedExactlyWhen(w.store, w.origin.value);
  }

  // ------------------------------- committing again after a rollback that was killed

  lemma RestoreOfBase(base: Files, p: Path)
    requires p in base ==> !base[p].Directory?
    requires p in base && base[p].File? ==> '\r' !in base[p].content
    ensures RestoreOne(base, Snap(base, p)) == base
  {
    hide Snap, RestoreOne;
    SnapShows(base, p, base);
    forall q ensures At(RestoreOne(base, Snap(base, p)), q) == At(base, q) { }
    SameAt(RestoreOne(base, Snap(base, p)), base);
  }

  lemma FirstOfLink(s: Store, p: Path, interface: string)
    requires p in s.files && s.files[p].Link?
    ensures |RestoreSteps(Snap(s.files, p))| == 2
    ensures Exec(s, RestoreSteps(Snap(s.files, p)), 1, interface) == s.(files := s.files - {p})
  {
    var steps := RestoreSteps(Snap(s.files, p));
    assert Exec(s, steps, 0, interface) == s;
  }

  /** A restore of the base itself, killed when it has removed the link at `i`. */
  lemma {:induction false} KilledRestore(
    base: Store, listing: seq<Path>, j: nat, i: nat, interface: string) returns (k: nat)
    requires j <= i < |listing| && Restorable(base.files, listing)
    requires listing[i] in base.files && base.files[listing[i]].Link?
    ensures k <= |RestoreFiles(SnapsFrom(base.files, listing, j))|
    ensures Exec(base, RestoreFiles(SnapsFrom(base.files, listing, j)), k, interface)
         == base.(files := base.files - {listing[i]})
    decreases i - j
  {
    hide *;
    assert listing[j] in listing;
    RestorableAt(base.files, listing, listing[j]);
    var steps := RestoreSteps(Snap(base.files, listing[j]));
    if j == i {
      k := 1;
      FirstOfLink(base, listing[i], interface);
      StepsFit(base.files, listing, j);
      NextRestore(base, base.files, listing, j, 1, interface);
    } else {
      var rest := KilledRestore(base, listing, j + 1, i, interface);
      k := |steps| + rest;
      StepsFit(base.files, listing, j);
      NextRestore(base, base.files, listing, j, k, interface);
      RestoreOfBase(base.files, listing[j]);
    }
  }

  lemma StepsFit(base: Files, listing: seq<Path>, j: nat)
    requires j < |listing| && Restorable(base, listing)
    ensures forall p <- listing | p in base :: !base[p].Directory?
    ensures listing[j] in base ==> !base[listing[j]].Directory?
    ensures |RestoreFiles(SnapsFrom(base, listing, j))|
         == |RestoreSteps(Snap(base, listing[j]))| + |RestoreFiles(SnapsFrom(base, listing, j + 1))|
  {
    hide RestoreSteps, Snap;
    var snaps := SnapsFrom(base, listing, j);
    assert listing[j] in listing && snaps[0] == Snap(base, listing[j]) && snaps[1..] == SnapsFrom(base, listing, j + 1);
  }

  /** A link that the next commit cannot do without: any but those written anyway, or made the same. */
  ghost predicate LostWithCommit(base: Store, p: Path, interface: string) {
    && p in base.files && base.files[p].Link? && !p.Managed? && !p.CloudInit?
    && (p.Main? ==> !MainLossless(base.files, base.files, interface))
  }

  /** A link that is removed is the only one missing. */
  lemma OneLinkMissing(s: Store, base: Store, job: Job, p: Path)
    requires Capturing(base, job) && Steady(base, job) && job.backend.IfupdownBackend?
    requires p in job.listing && LostWithCommit(base, p, job.interface) && s == base.(files := base.files - {p})
    ensures CanResume(s, base, job) && !Recoverable(s.files, base, job)
  {
    hide Capturable, IsListing, Resumable, Rewritten, BackedUp, Steady;
    BaseCanResume(base, job);
    forall q ensures At(WithLinks(s.files, base.files, job.listing), q) == At(base.files, q) {
      WithLinksAt(s.files, base.files, job.listing, q);
    }
    SameAt(WithLinks(s.files, base.files, job.listing), base.files);
    assert WithLinks(base.files, base.files, job.listing) == base.files by { NoLinkMissing(base.files, job.listing); }
    assert At(s.files, BackupOf(Main)) == At(base.files, BackupOf(Main)) || p != Main;
  }

  lemma CommitLosesLink(s: Store, o: Origin, p: Path)
    requires Capturing(o.base, o.job) && Steady(o.base, o.job) && o.job.backend.IfupdownBackend?
    requires InReach(s, o.base, o.job) && p in o.job.listing && LostWithCommit(o.base, p, o.job.interface)
    requires s == o.base.(files := o.base.files - {p})
    ensures var t := ExecAll(s, PersistSteps(o.base, o.job), o.job.interface); t != o.base && t != PersistedStore(o)
  {
    hide Capturing, Steady, InReach, PersistSteps, Exec, CanResume, MainLossless, Recoverable;
    var program := PersistSteps(o.base, o.job);
    PersistOnlyPersists(o.base, o.job);
    NoNewLinks(s, program, |program|, o.job.interface, p);
    OneLinkMissing(s, o.base, o.job, p);
    ResumeEndsExactlyWhen(s, o.base, o.job);
  }

  /** A prepared ifupdown transition loads and commits from the first step on. */
  lemma PreparedCommits(w: World, done: nat, restored: nat)
    requires Pending(w) && w.record.Some? && w.origin.Some? && !w.record.value.committed
    requires w.origin.value.job.backend.IfupdownBackend? && Capturing(w.origin.value.base, w.origin.value.job)
    requires var o := w.origin.value;
             done <= |PersistSteps(o.base, o.job)| + 1 && restored <= |UndoSteps(o.base, o.job)|
    ensures Loads(w, None) && Enabled(w, Commit(None, done, restored))
    ensures var o, t := w.origin.value, Apply(w, Commit(None, done, restored));
            var program := PersistSteps(o.base, o.job);
            && Pending(t) && t.record.Some?
            && (if done == |program| + 1
                then t.store == ExecAll(w.store, program, o.job.interface) && t.record.value.committed
                     && t.origin == Some(o.(undone := NOTHING))
                else var mid := Exec(w.store, program, done, o.job.interface);
                     t.store == Exec(mid, UndoSteps(o.base, o.job), restored, o.job.interface)
                     && !t.record.value.committed && t.origin == w.origin)
  {
    hide Pending, Capturing, Accepts, Exec, ExecAll, PersistOf, UndoOf, PersistSteps, UndoSteps, GoalsFrom;
    PendingLoads(w, None);
    RecordMeans(w);
    StepKeepsPending(w, Commit(None, done, restored));
  }

  /**
   Why a commit must find the links in place: whatever the steady base, when the rollback
   of a failed commit is killed between removing a link and recreating it, committing
   again and finalizing ends in neither the old nor the new configuration.
   */
  lemma KilledRollbackThenCommitMixes(start: World, prepare: Event, i: nat) returns (events: seq<Event>)
    requires start.record.None? && prepare.Prepare? && Enabled(start, prepare) && Orderly(start, prepare)
    requires prepare.job.backend.IfupdownBackend? && i < |prepare.job.listing|
    requires LostWithCommit(start.store, prepare.job.listing[i], prepare.job.interface)
    ensures IsRun(start, events) && forall e <- events :: !e.Abort?
    ensures var w := After(start, events);
            w.record.None? && w.origin.Some? && w.origin.value.base == start.store
            && Capturing(w.origin.value.base, w.origin.value.job)
            && w.store != w.origin.value.base && w.store != PersistedStore(w.origin.value)
  {
    hide Capturing, InReach, Accepts, Steady, WellFormed, Exec, ExecAll, Pending, PersistSteps, UndoSteps,
      LostWithCommit, LiveSteps, RunLive, IsIdentity, ValidSettings, Matches, Goals.Chosen, Log, Restorable,
      FilesFirst, NoLinksOutside, RecordOf;
    var w1 := Apply(start, prepare);
    PreparedWorld(start, prepare);
    var o := w1.origin.value;
    SteadyRestorable(o.base, o.job);
    UndoIsRestore(o.base, o.job);
    LinkOf(o.base, o.job.listing[i], o.job.interface);
    var k := KilledRestore(o.base, o.job.listing, 0, i, o.job.interface);
    PreparedCommits(w1, 0, k);
    NoSteps(o.base, PersistSteps(o.base, o.job), o.job.interface);
    var first, n := Commit(None, 0, k), |PersistSteps(o.base, o.job)| + 1;
    var w2 := Apply(w1, first);
    assert w2.store == o.base.(files := o.base.files - {o.job.listing[i]});
    PreparedCommits(w2, n, 0);
    var again := Commit(None, n, 0);
    var w3 := Apply(w2, again);
    PendingParts(w2);
    CommitLosesLink(w2.store, o, o.job.listing[i]);
    FinalizesCommitted(w3);
    events := [prepare, first, again, Finalize(None)];
    FourEvents(start, prepare, first, again, Finalize(None));
    SamePersisted(o, w3.origin.value);
  }

  lemma SamePersisted(a: Origin, b: Origin)
    requires Capturing(a.base, a.job) && b == a.(undone := b.undone)
    ensures PersistedStore(b) == PersistedStore(a)
  {
  }

  lemma LinkOf(base: Store, p: Path, interface: string)
    requires LostWithCommit(base, p, interface)
    ensures p in base.files && base.files[p].Link?
  {
    hide MainLossless;
  }

  lemma PreparedWorld(w: World, e: Event)
    requires w.record.None? && e.Prepare? && Enabled(w, e)
    ensures var t := Apply(w, e);
            && Pending(t) && t.record.Some? && !t.record.value.committed && t.store == w.store
            && t.origin.Some? && t.origin.value.base == w.store && t.origin.value.job == e.job
            && Capturing(w.store, e.job)
  {
    hide Pending, Capturing, WellFormed, LiveSteps, RunLive, Log, Steady, Goals.Chosen, IsIdentity, ValidSettings,
      Matches;
    PrepareKeepsPending(w, e);
  }

  lemma FinalizesCommitted(w: World)
    requires Pending(w) && w.record.Some? && w.record.value.committed
    requires w.origin.Some? && w.origin.value.job.backend.IfupdownBackend?
    ensures Apply(w, Finalize(None)) == w.(record := None)
  {
    hide Pending, Accepts;
    PendingLoads(w, None);
  }

  // A host on which that happens: the main file is a link to an empty file.

  function LinkedFiles(): Files { map[Main := Link(Other("interfaces")), Other("interfaces") := File("", 0x1A4)] }

  function LinkedHost(): World {
    World(Store(LinkedFiles(), map[]), Live(Family({}, [], {}), Family({}, [], {})), None, false, None)
  }

  function LinkedJob(address: Address, interface: string): Job {
    Job(IfupdownBackend, Settings(Some(address), None, None, None, []), interface, "",
        [Main, Managed, CloudInit, BackupOf(Main)], false)
  }

  lemma LinkedIsCapturing(address: Address, interface: string)
    ensures Capturing(LinkedHost().store, LinkedJob(address, interface)) && WellFormed(LinkedHost().store)
  {
    assert CapturedPaths(IfupdownBackend, LinkedFiles()) == {Main, Managed, CloudInit, BackupOf(Main)};
  }

  lemma LinkedCaptures(address: Address, interface: string)
    ensures Capturing(LinkedHost().store, LinkedJob(address, interface)) && WellFormed(LinkedHost().store)
    ensures StanzaFilesOf(LinkedHost().store, LinkedJob(address, interface)) == [Main]
  {
    var job := LinkedJob(address, interface);
    LinkedIsCapturing(address, interface);
    hide Capturing, CapturedPaths;
    StanzaFilesListed(LinkedHost().store, job);
    var paths := StanzaFilesOf(LinkedHost().store, job);
    forall i | 0 <= i < |paths|
      ensures paths[i] == Main
    {
      assert paths[i] in paths && paths[i] in job.listing;
    }
    OnlyMain(paths);
  }

  lemma OnlyMain(paths: seq<Path>)
    requires paths != [] && forall i | 0 <= i < |paths| :: paths[i] == Main
    ensures Distinct(paths) ==> paths == [Main]
  {
    if |paths| > 1 { assert paths[0] == paths[1]; }
  }

  lemma LinkedIsSteady(address: Address, interface: string)
    ensures Capturing(LinkedHost().store, LinkedJob(address, interface))
    ensures Steady(LinkedHost().store, LinkedJob(address, interface))
  {
    hide Spared, Capturing, StanzaFilesOf;
    var job, files := LinkedJob(address, interface), LinkedFiles();
    LinkedCaptures(address, interface);
    EmptyText();
    assert Contained(LinkedHost().store, job);
    assert LinksSafe(files, [Main], false, interface);
  }

  lemma EmptyText()
    ensures Resolve(LinkedFiles(), At(LinkedFiles(), Main)) == Some(File("", 0x1A4))
    ensures ReadText(Some(File("", 0x1A4))) == "" && !HasInclude("")
  {
  }

  lemma LinkedLoses(address: Address, interface: string)
    ensures LostWithCommit(LinkedHost().store, Main, interface)
  {
    hide HasInclude, StripStanzas, WithInclude, FreshMain, ReadText;
    var files := LinkedFiles();
    EmptyText();
    FreshMainIncluded(files, interface);
    FreshMainIsLong();
    assert NeedsInclude(files, At(files, Main));
    assert BackedUp(files, At(files, Main), None, true, interface) == Some(File("", 0x1A4));
  }

  lemma FreshMainIsLong()
    ensures FreshMain().File? && FreshMain().content != ""
  {
    hide HasInclude;
    DefaultLacksInclude();
  }

  /** On that host the killed rollback, the second commit and finalize end in neither configuration. */
  lemma LinkedHostMixes(address: Address, interface: string) returns (events: seq<Event>)
    ensures IsRun(LinkedHost(), events)
    ensures var w := After(LinkedHost(), events);
            w.record.None? && w.origin.Some? && Capturing(w.origin.value.base, w.origin.value.job)
            && w.store != w.origin.value.base && w.store != PersistedStore(w.origin.value)
  {
    hide Capturing, WellFormed, Steady, LostWithCommit;
    var prepare := Prepare(ExampleId(), LinkedJob(address, interface), ExampleGoals(address), 1);
    LinkedCaptures(address, interface);
    LinkedIsSteady(address, interface);
    LinkedLoses(address, interface);
    events := KilledRollbackThenCommitMixes(LinkedHost(), prepare, 0);
  }

  // --------------------------------- committing again where links share what is rewritten

  /** A restore that is killed when the first `j` snapshots are put back. */
  lemma PartlyRestored(s: Store, base: Store, job: Job, j: nat) returns (k: nat)
    requires Capturing(base, job) && j <= |job.listing| && !job.backend.NetworkManager?
    ensures k <= |UndoSteps(base, job)|
    ensures Exec(s, UndoSteps(base, job), k, job.interface)
         == s.(files := RestoreAll(s.files, Snaps(base.files, job.listing)[..j]))
  {
    hide Exec, ExecAll, Snap, RestoreSteps, CapturedPaths, IsListing, Capturable;
    var snaps := Snaps(base.files, job.listing);
    var head, tail := RestoreFiles(snaps[..j]), RestoreFiles(snaps[j..]);
    k := |head|;
    assert snaps == snaps[..j] + snaps[j..];
    RestoreFilesConcat(snaps[..j], snaps[j..]);
    ExecPrefix(s, head, tail, |head|, job.interface);
    ExecRestoreFiles(s, snaps[..j], job.interface);
    ExecAllIs(s, head, job.interface);
  }

  lemma {:induction false} RestoreFilesConcat(a: seq<Snapshot>, b: seq<Snapshot>)
    ensures RestoreFiles(a + b) == RestoreFiles(a) + RestoreFiles(b)
  {
    hide RestoreSteps;
    if a == [] {
      assert a + b == b;
    } else {
      assert (a + b)[1..] == a[1..] + b;
      RestoreFilesConcat(a[1..], b);
    }
  }

  /** The files are treated in the order of the listing. */
  lemma {:induction false} StanzaPathsGrow(snaps: seq<Snapshot>, i: nat)
    requires i <= |snaps|
    ensures StanzaPaths(snaps[..i]) <= StanzaPaths(snaps) && StanzaPaths(snaps[..i]) != []
    ensures i < |snaps| && snaps[i].path.InDir? ==>
              var n := |StanzaPaths(snaps[..i])|; n < |StanzaPaths(snaps)| && StanzaPaths(snaps)[n] == snaps[i].path
  {
    StanzaPathsListed(snaps[..i]);
    if i == |snaps| {
      assert snaps[..i] == snaps;
    } else {
      var init := snaps[..|snaps| - 1];
      assert init[..i] == snaps[..i];
      StanzaPathsGrow(init, i);
      if i == |snaps| - 1 { assert init == snaps[..i]; }
    }
  }

  /** The places of two listed files of the directory, `b` behind `a`. */
  lemma TurnsOf(base: Store, job: Job, i: nat, j: nat) returns (n: nat, m: nat)
    requires Capturing(base, job) && job.backend.IfupdownBackend? && i < j < |job.listing|
    requires job.listing[i].InDir? && job.listing[j].InDir?
    ensures 0 < n < m < |StanzaFilesOf(base, job)|
    ensures StanzaFilesOf(base, job)[n] == job.listing[i] && StanzaFilesOf(base, job)[m] == job.listing[j]
  {
    hide CapturedPaths, IsListing, Capturable, Snap;
    var snaps := Snaps(base.files, job.listing);
    SnapsPaths(base.files, job.listing);
    StanzaPathsGrow(snaps, i);
    StanzaPathsGrow(snaps, j);
    n, m := |StanzaPaths(snaps[..i])|, |StanzaPaths(snaps[..j])|;
    var before := snaps[..j];
    assert before[..i] == snaps[..i] && before[i] == snaps[i];
    StanzaPathsGrow(before, i);
  }

  /** `a` is a link to `b`, both in the directory, and `b` holds a stanza of the interface. */
  ghost predicate SharesStanza(base: Files, a: Path, b: Path, interface: string) {
    && a.InDir? && b.InDir? && a in base && base[a] == Link(b) && b in base && base[b].File?
    && NeedsStrip(base, Some(base[b]), interface)
  }

  /** The store once the link has been put back and the file has not. */
  lemma LinkBackFileNot(o: Origin, i: nat, j: nat, s: Store)
    requires Capturing(o.base, o.job) && Contained(o.base, o.job) && o.job.backend.IfupdownBackend?
    requires i < j < |o.job.listing| && SharesStanza(o.base.files, o.job.listing[i], o.job.listing[j], o.job.interface)
    requires var p := PersistedStore(o);
             s == p.(files := RestoreAll(p.files, Snaps(o.base.files, o.job.listing)[..i + 1]))
    ensures var a, b := o.job.listing[i], o.job.listing[j];
            && At(s.files, a) == Some(Link(b)) && At(s.files, b) == At(PersistedStore(o).files, b)
            && (forall p <- o.job.listing | p in o.base.files && o.base.files[p].Link? :: p in s.files)
  {
    hide CapturedPaths, Capturable, Contained, RestoreAll, PersistSteps, ExecAll, NeedsStrip, PersistedStore;
    var snaps, listing := Snaps(o.base.files, o.job.listing), o.job.listing;
    var persisted := PersistedStore(o).files;
    SnapsPaths(o.base.files, listing);
    RestoreAllShows(persisted, snaps[..i + 1]);
    PersistedKeepsPaths(o);
    assert snaps[..i + 1][i] == snaps[i] && snaps[i] in snaps[..i + 1];
    assert listing[j] !in PathsOf(snaps[..i + 1]);
    forall p <- listing | p in o.base.files && o.base.files[p].Link?
      ensures p in s.files
    {
      var k :| 0 <= k < |listing| && listing[k] == p;
      if k <= i { assert snaps[..i + 1][k] == snaps[k] && snaps[k] in snaps[..i + 1]; }
      if p !in PathsOf(snaps[..i + 1]) { assert p in persisted; }
    }
  }

  /** From there the second commit leaves the link alone that the first one replaced. */
  lemma SharedTextDiverges(o: Origin, i: nat, j: nat, s: Store)
    requires Capturing(o.base, o.job) && Contained(o.base, o.job) && o.job.backend.IfupdownBackend?
    requires i < j < |o.job.listing| && SharesStanza(o.base.files, o.job.listing[i], o.job.listing[j], o.job.interface)
    requires InReach(s, o.base, o.job)
    requires var a, b := o.job.listing[i], o.job.listing[j];
             At(s.files, a) == Some(Link(b)) && At(s.files, b) == At(PersistedStore(o).files, b)
    ensures var t := ExecAll(s, PersistSteps(o.base, o.job), o.job.interface); t != o.base && t != PersistedStore(o)
  {
    hide *;
    var a, b, base := o.job.listing[i], o.job.listing[j], o.base.files;
    SharingMeans(base, a, b, o.job.interface);
    var n, m := TurnsOf(o.base, o.job, i, j);
    BaseInReach(o.base, o.job);
    LinkTurn(o.base, o.base, o.job, n, m);
    FileTurn(o.base, o.base, o.job, m);
    PersistedIsAll(o);
    StrippedSettles(base, At(base, b), o.job.interface);
    StrippedFile(base, At(base, b), o.job.interface);
    AtSome(s.files, s.files, b);
    AtSome(s.files, s.files, a);
    LinkTurn(s, o.base, o.job, n, m);
    FileTurn(s, o.base, o.job, m);
  }

  lemma PersistedIsAll(o: Origin)
    requires Capturing(o.base, o.job)
    ensures PersistedStore(o) == ExecAll(o.base, PersistSteps(o.base, o.job), o.job.interface)
  {
    hide Capturing, ExecAll, PersistSteps;
  }

  lemma SharingMeans(base: Files, a: Path, b: Path, interface: string)
    requires SharesStanza(base, a, b, interface)
    ensures a.InDir? && b.InDir? && a in base && base[a] == Link(b) && b in base && base[b].File?
    ensures At(base, a) == Some(Link(b)) && At(base, b) == Some(base[b]) && NeedsStrip(base, At(base, b), interface)
  {
    hide NeedsStrip;
  }

  lemma StrippedFile(base: Files, x: Option<Node>, interface: string)
    requires x.Some? && x.value.File?
    ensures Stripped(base, x, interface).Some? && Stripped(base, x, interface).value.File?
  {
    hide NeedsStrip, StripStanzas, Resolve;
  }

  /** A persist and the record that follows it: the store of a run whose record is not written. */
  lemma LinksOfSnapshots(o: Origin, r: Record, files: Files)
    requires Capturing(o.base, o.job) && r.backend == o.job.backend && r.rollback == Log(o.base, o.job)
    requires forall p <- o.job.listing | p in o.base.files && o.base.files[p].Link? :: p in files
    ensures LinksStand(files, r)
  {
    hide CapturedPaths, Capturable;
    if o.job.backend.IfupdownBackend? {
      var snaps := Snaps(o.base.files, o.job.listing);
      forall x <- snaps | x.Target?
        ensures x.path in files
      {
        var k :| 0 <= k < |snaps| && snaps[k] == x;
        assert o.job.listing[k] in o.job.listing && x == Snap(o.base.files, o.job.listing[k]);
      }
    }
  }

  /**
   Why links must lead to what is not changed: where a link is listed before the file it
   leads to, and that file holds a stanza, a failed commit whose rollback is killed right
   after the link is back leaves all links in place; yet a second commit and finalize end
   in neither the old nor the new configuration.
   */
  lemma SharedTextThenCommitMixes(start: World, prepare: Event, i: nat, j: nat) returns (events: seq<Event>)
    requires start.record.None? && prepare.Prepare? && Enabled(start, prepare) && Contained(start.store, prepare.job)
    requires prepare.job.backend.IfupdownBackend? && i < j < |prepare.job.listing|
    requires SharesStanza(start.store.files, prepare.job.listing[i], prepare.job.listing[j], prepare.job.interface)
    ensures |events| == 4 && IsRun(start, events) && forall e <- events :: !e.Abort?
    ensures IsRun(start, events[..2]) && After(start, events[..2]).record.Some?
    ensures var w := After(start, events[..2]); LinksStand(w.store.files, w.record.value)
    ensures var w := After(start, events);
            w.record.None? && w.origin.Some? && w.origin.value.base == start.store
            && Capturing(w.origin.value.base, w.origin.value.job)
            && w.store != w.origin.value.base && w.store != PersistedStore(w.origin.value)
  {
    hide Capturing, InReach, Accepts, Contained, WellFormed, Exec, ExecAll, Pending, PersistSteps, UndoSteps,
      LiveSteps, RunLive, IsIdentity, ValidSettings, Matches, Goals.Chosen, Log, RecordOf, SharesStanza,
      PersistedStore, LinksStand;
    var w1 := Apply(start, prepare);
    PreparedWorld(start, prepare);
    var o := w1.origin.value;
    var n := |PersistSteps(o.base, o.job)|;
    var k := PartlyRestored(PersistedStore(o), o.base, o.job, i + 1);
    PersistedIs(o);
    PreparedCommits(w1, n, k);
    var first, again := Commit(None, n, k), Commit(None, n + 1, 0);
    var w2 := Apply(w1, first);
    LinkBackFileNot(o, i, j, w2.store);
    CommittedRecord(w1, first);
    LinksOfSnapshots(o, w2.record.value, w2.store.files);
    PreparedCommits(w2, n + 1, 0);
    var w3 := Apply(w2, again);
    PendingParts(w2);
    SharedTextDiverges(o, i, j, w2.store);
    FinalizesCommitted(w3);
    events := [prepare, first, again, Finalize(None)];
    FourEvents(start, prepare, first, again, Finalize(None));
    assert events[..2] == [prepare, first];
    TwoEvents(start, prepare, first);
    SamePersisted(o, w3.origin.value);
  }

  /** A commit leaves of the record all but its state. */
  lemma CommittedRecord(w: World, e: Event)
    requires Pending(w) && w.record.Some? && e.Commit? && Enabled(w, e) && Apply(w, e).record.Some?
    ensures w.origin.Some? && Capturing(w.origin.value.base, w.origin.value.job)
    ensures var r, o := Apply(w, e).record.value, w.origin.value;
            r.backend == o.job.backend && r.rollback == Log(o.base, o.job)
  {
    hide Capturing, WellFormed, InReach, LiveUnderway, Goals.Chosen, IsIdentity, ValidSettings, Matches, Log, Exec,
      ExecAll, PersistOf, UndoOf, Accepts;
    OpenPending(w);
  }

  // A run that ends mixed: commit, an abort killed after its first file, finalize.

  lemma ExampleCaptures(base: Store, job: Job)
    requires base == Store(map[], map[]) && job.backend.SystemdNetworkd? && job.listing == [Networkd, CloudInit]
             && job.cloudInit
    ensures Capturing(base, job) && Steady(base, job) && WellFormed(base)
  {
  }

  /** Persist writes both files; undoing starts with the networkd file. */
  lemma ExampleSteps(base: Store, job: Job, text: string)
    requires base == Store(map[], map[]) && job.backend.SystemdNetworkd? && job.listing == [Networkd, CloudInit]
             && job.cloudInit
    requires text == RenderNetworkd(job.settings, job.interface) && Capturing(base, job)
    ensures PersistSteps(base, job) == [Write(Networkd, text, 0x1A4), Write(CloudInit, CLOUD_INIT_CONTENT, 0x1A4)]
    ensures UndoSteps(base, job) == [Unlink(Networkd), Unlink(CloudInit)]
  {
    hide RenderNetworkd, Capturable, IsListing, CapturedPaths;
    var snaps := Snaps(base.files, job.listing);
    assert snaps == [Absent(Networkd), Absent(CloudInit)];
    assert snaps[1..] == [Absent(CloudInit)] && snaps[1..][1..] == [];
    assert RestoreFiles([Absent(CloudInit)]) == [Unlink(CloudInit)] + RestoreFiles([]);
    assert RestoreFiles(snaps) == [Unlink(Networkd)] + RestoreFiles(snaps[1..]);
  }

  lemma ExampleStores(base: Store, text: string, interface: string)
    requires base == Store(map[], map[])
    ensures var cloud := File(CLOUD_INIT_CONTENT, 0x1A4);
            var both := ExecAll(base, [Write(Networkd, text, 0x1A4), Write(CloudInit, CLOUD_INIT_CONTENT, 0x1A4)],
                                interface);
            both.files == map[Networkd := File(text, 0x1A4), CloudInit := cloud]
            && Exec(both, [Unlink(Networkd), Unlink(CloudInit)], 1, interface).files == map[CloudInit := cloud]
  {
    ExecTwo(base, Write(Networkd, text, 0x1A4), Write(CloudInit, CLOUD_INIT_CONTENT, 0x1A4), interface);
    var both := ExecAll(base, [Write(Networkd, text, 0x1A4), Write(CloudInit, CLOUD_INIT_CONTENT, 0x1A4)], interface);
    ExecTwo(both, Unlink(Networkd), Unlink(CloudInit), interface);
  }

  function ExampleId(): string { seq(64, _ => '0') }

  /** The host of the example: nothing configured, and a directory for cloud-init. */
  function ExampleHost(): World {
    World(Store(map[], map[]), Live(Family({}, [], {}), Family({}, [], {})), None, true, None)
  }

  function ExampleJob(address: Address, interface: string): Job {
    Job(SystemdNetworkd, Settings(Some(address), None, None, None, []), interface, "", [Networkd, CloudInit], true)
  }

  function ExampleGoals(address: Address): Goals {
    Goals(Goal(Some(address), true, None, None), Goal(None, false, None, None))
  }

  lemma ExamplePrepares(address: Address, interface: string)
    ensures var e := Prepare(ExampleId(), ExampleJob(address, interface), ExampleGoals(address), 1);
            Enabled(ExampleHost(), e) && Steady(ExampleHost().store, e.job)
  {
    hide Steady, Capturing, WellFormed;
    ExampleCaptures(ExampleHost().store, ExampleJob(address, interface));
  }

  /** Commit after the prepare above. */
  lemma ExampleCommits(w: World, address: Address, interface: string)
    requires w == Apply0(address, interface)
    ensures Enabled(w, Commit(None, 3, 0)) && Loads(w, None) && Pending(w) && w.origin.Some?
    ensures Apply(w, Commit(None, 3, 0)).record == Some(w.record.value.(committed := true))
    ensures Apply(w, Commit(None, 3, 0)).store == PersistedStore(w.origin.value)
  {
    hide Capturing, InReach, LiveUnderway, Goals.Chosen, Accepts, Steady, WellFormed, Pending, RenderNetworkd, Exec,
      ExecAll, PersistOf, UndoOf;
    var e := Prepare(ExampleId(), ExampleJob(address, interface), ExampleGoals(address), 1);
    ExamplePrepares(address, interface);
    PrepareKeepsPending(ExampleHost(), e);
    PendingLoads(w, None);
    RecordMeans(w);
    ExampleSteps(w.origin.value.base, w.origin.value.job, RenderNetworkd(w.origin.value.job.settings, interface));
  }

  ghost function Apply0(address: Address, interface: string): World {
    ExamplePrepares(address, interface);
    Apply(ExampleHost(), Prepare(ExampleId(), ExampleJob(address, interface), ExampleGoals(address), 1))
  }

  /**
   Not every run is atomic: committed, aborted up to the first file and then finalized,
   a transition leaves a configuration that is neither the old nor the new one.
   */
  lemma HalfAbortThenFinalizeMixes(address: Address, interface: string) returns (events: seq<Event>)
    ensures IsRun(ExampleHost(), events)
    ensures var w := After(ExampleHost(), events);
            w.record.None? && w.origin.Some? && Capturing(w.origin.value.base, w.origin.value.job)
            && w.store != w.origin.value.base && w.store != PersistedStore(w.origin.value)
  {
    hide Capturing, InReach, LiveUnderway, Goals.Chosen, Accepts, Steady, WellFormed, RenderNetworkd, Exec, ExecAll,
      Pending, PersistOf, UndoOf, AbortLength;
    var start := ExampleHost();
    var prepare := Prepare(ExampleId(), ExampleJob(address, interface), ExampleGoals(address), 1);
    var w1 := Apply0(address, interface);
    ExamplePrepares(address, interface);
    ExampleCommits(w1, address, interface);
    var w2 := Apply(w1, Commit(None, 3, 0));
    var o := w1.origin.value;
    var text := RenderNetworkd(o.job.settings, interface);
    ExampleCaptures(o.base, o.job);
    ExampleSteps(o.base, o.job, text);
    ExampleStores(o.base, text, interface);
    StepKeepsPending(w1, Commit(None, 3, 0));
    PendingLoads(w2, None);
    RecordMeans(w2);
    AbortIsLong(w2.record.value);
    var w3 := Apply(w2, Abort(None, 1, {}));
    var w4 := Apply(w3, Finalize(None));
    events := [prepare, Commit(None, 3, 0), Abort(None, 1, {}), Finalize(None)];
    FourEvents(start, events[0], events[1], events[2], events[3]);
    assert Networkd in PersistedStore(o).files && PersistedStore(w4.origin.value) == PersistedStore(o);
    assert Networkd !in w4.store.files;
  }

  lemma AbortIsLong(r: Record)
    ensures AbortLength(r) > |UndoOf(r)|
  {
  }
}
