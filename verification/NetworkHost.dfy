/**
 The transition as it runs: a host whose files, connections, live state and
 record the entry points change step by step. How many steps a call completes is
 a parameter, because any step may fail and the process may be killed.
 */
module NetworkHost {
  import opened Wrappers
  import opened Ifupdown
  import opened NetworkStore
  import opened NetworkRestore
  import opened NetworkResume
  import opened NetworkLive
  import opened NetworkTransition

  // ----------------------------------------------------------------- validation

  /** The loop over file snapshots, with the set of the paths seen so far. */
  method ValidateSnapshots(files: seq<Snapshot>, backend: Backend) returns (ok: bool)
    requires !backend.NetworkManager?
    ensures ok == ValidRollback(Snapshots(files), backend)
  {
    hide AllowedPath, ValidSnapshot, RequiredPath;
    if files == [] {
      return false;
    }
    var seen: set<Path> := {};
    for i := 0 to |files|
      invariant seen == PathsOf(files[..i])
      invariant forall j, k | 0 <= j < k < i :: files[j].path != files[k].path
      invariant forall j | 0 <= j < i :: AllowedPath(files[j].path, backend) && ValidSnapshot(files[j])
    {
      SeenSoFar(files, i);
      if files[i].path in seen || !AllowedPath(files[i].path, backend) || !ValidSnapshot(files[i]) {
        assert files[i] in files;
        return false;
      }
      seen := seen + {files[i].path};
    }
    assert files[..|files|] == files;
    ok := CloudInit in seen && (if backend.SystemdNetworkd? then Networkd else Main) in seen
      && (backend.IfupdownBackend? ==> Managed in seen);
    RequiredIn(seen, backend);
  }

  lemma SeenSoFar(files: seq<Snapshot>, i: nat)
    requires i < |files|
    ensures PathsOf(files[..i + 1]) == PathsOf(files[..i]) + {files[i].path}
    ensures files[i].path in PathsOf(files[..i]) <==> exists j | 0 <= j < i :: files[j].path == files[i].path
  {
    assert files[..i + 1] == files[..i] + [files[i]];
    if j :| 0 <= j < i && files[j].path == files[i].path {
      assert files[..i][j] in files[..i];
    }
    if files[i].path in PathsOf(files[..i]) {
      var x :| x in files[..i] && x.path == files[i].path;
      var j :| 0 <= j < i && files[..i][j] == x;
      assert files[j].path == files[i].path;
    }
  }

  lemma RequiredIn(seen: set<Path>, backend: Backend)
    ensures (forall p | RequiredPath(p, backend) :: p in seen)
       <==> CloudInit in seen && (if backend.SystemdNetworkd? then Networkd else Main) in seen
            && (backend.IfupdownBackend? ==> Managed in seen)
  {
    assert RequiredPath(CloudInit, backend)
      && RequiredPath(if backend.SystemdNetworkd? then Networkd else Main, backend);
    assert backend.IfupdownBackend? ==> RequiredPath(Managed, backend);
  }

  method ValidateRollback(r: Rollback, backend: Backend) returns (ok: bool)
    ensures ok == ValidRollback(r, backend)
  {
    match r {
      case Properties(connection, values, file) =>
        ok := backend.NetworkManager? && Printable(connection) && values.Keys == ROLLBACK_PROPERTIES
          && file.path == CloudInit && ValidSnapshot(file) && forall p <- values, v <- values[p] :: IsOneLine(v);
      case Snapshots(files) =>
        if backend.NetworkManager? {
          return false;
        }
        ok := ValidateSnapshots(files, backend);
    }
  }

  /** `_load_network_transition`, up to the errors it can raise. */
  method Validate(r: Record) returns (ok: bool)
    ensures ok == Accepts(r)
  {
    hide ValidRollback;
    if !IsIdentity(r.id) || !ValidSettings(r.settings) {
      return false;
    }
    for i := 0 to |r.added|
      invariant forall j, k | 0 <= j < k < i :: r.added[j] != r.added[k]
      invariant forall j | 0 <= j < i ::
                Some(r.added[j]) == r.settings.static4 || Some(r.added[j]) == r.settings.static6
    {
      assert r.added[i] in r.added;
      if r.added[i] in r.added[..i]
        || !(Some(r.added[i]) == r.settings.static4 || Some(r.added[i]) == r.settings.static6) {
        return false;
      }
      assert forall j | 0 <= j < i :: r.added[..i][j] == r.added[j];
    }
    if Four in r.tables && !(FIRST_TABLE <= r.tables[Four] < TABLES_END) {
      return false;
    }
    if Six in r.tables && !(FIRST_TABLE <= r.tables[Six] < TABLES_END) {
      return false;
    }
    if (Four in r.tables) != r.settings.gateway4.Some? || (Six in r.tables) != r.settings.gateway6.Some? {
      return false;
    }
    assert forall v <- r.tables :: v == Four || v == Six;
    ok := ValidateRollback(r.rollback, r.backend);
  }

  // ------------------------------------------------------------------- the host

  class Host {
    var files: Files
    var connections: map<string, map<Property, string>>
    var live: Live
    var record: Option<Record>
    const cloudInit: bool
    ghost var origin: Option<Origin>

    ghost function Value(): World
      reads this
    {
      World(Store(files, connections), live, record, cloudInit, origin)
    }

    /** The policy table that the record names. */
    function TableOf(v: Version): Option<nat>
      requires record.Some?
      reads this
    {
      if v in record.value.tables then Some(record.value.tables[v]) else None
    }

    constructor (files: Files, connections: map<string, map<Property, string>>, live: Live, cloudInit: bool)
      ensures Value() == World(Store(files, connections), live, None, cloudInit, None)
    {
      this.files, this.connections, this.live, this.record, this.cloudInit := files, connections, live, None, cloudInit;
      origin := None;
    }

    /** The backup half of `_write_with_backup`. */
    method BackUp(path: Path)
      modifies this`files
      ensures files == CopyBackup(old(files), path)
    {
      var source := Followed(files, path);
      var backup := BackupOf(path);
      if source.Some? && !Exists(files, backup) {
        var target := if backup in files && files[backup].Link? then files[backup].target else backup;
        files := files[target := source.value];
      }
    }

    method RewriteFile(path: Path, content: string)
      modifies this`files
      ensures files == Rewrite(old(files), path, content)
    {
      var mode: nat := 0x1A4;
      if Followed(files, path).Some? {
        mode := Followed(files, path).value.mode;
      }
      files := files[path := File(content, mode)];
    }

    /** What `_remove_existing_ifupdown_stanzas` reads: the text without the stanzas, if that is different. */
    method ReadStanzas(path: Path, interface: string) returns (updated: Option<string>)
      ensures updated == NewStanzas(files, path, interface)
    {
      var f := Followed(files, path);
      if f.None? {
        return None;
      }
      var original := Universal(f.value.content);
      var text := StripIfupdownStanzas(original, interface);
      updated := if text == original then None else Some(text);
    }

    /** One command or one file operation. */
    method Perform(step: Step, interface: string)
      modifies this`files, this`connections
      ensures Store(files, connections) == Effect(Store(old(files), old(connections)), step, interface)
    {
      match step {
        case Modify(connection, changes) =>
          if connection in connections {
            connections := connections[connection := connections[connection] + changes];
          }
        case Write(path, content, mode) => files := files[path := File(content, mode)];
        case Unlink(path) => files := files - {path};
        case Symlink(path, target) => files := files[path := Link(target)];
        case BackupMain => if NewMain(files).Some? { BackUp(Main); }
        case WriteMain => if NewMain(files).Some? { RewriteFile(Main, NewMain(files).value); }
        case BackupStanzas(path) =>
          var updated := ReadStanzas(path, interface);
          if updated.Some? { BackUp(path); }
        case WriteStanzas(path) =>
          var updated := ReadStanzas(path, interface);
          if updated.Some? { RewriteFile(path, updated.value); }
      }
    }

    /** The first `count` steps of a program. */
    method RunSteps(program: seq<Step>, count: nat, interface: string)
      requires count <= |program|
      modifies this`files, this`connections
      ensures Store(files, connections) == Exec(Store(old(files), old(connections)), program, count, interface)
    {
      hide Effect;
      for i := 0 to count
        invariant Store(files, connections) == Exec(Store(old(files), old(connections)), program, i, interface)
      {
        Perform(program[i], interface);
      }
    }

    method RunCommands(goals: Goals, steps: seq<LiveStep>, count: nat, refused: set<LiveStep>)
      requires count <= |steps|
      modifies this`live
      ensures live == RunLive(old(live), goals, steps, count, refused)
    {
      hide Take;
      for i := 0 to count
        invariant live == RunLive(old(live), goals, steps, i, refused)
      {
        if steps[i] !in refused {
          live := Take(live, goals, steps[i]);
        }
      }
    }

    method Load(expected: Option<string>) returns (ok: bool)
      ensures ok == Loads(Value(), expected)
      ensures ok ==> record.Some? && (expected.Some? ==> record.value.id == expected.value)
    {
      hide Accepts;
      if record.None? {
        return false;
      }
      var valid := Validate(record.value);
      ok := valid && (expected.Some? ==> expected.value == record.value.id);
    }

    /** Persist, then mark the record; a failing step is followed by `restored` steps of the rollback. */
    method Commit(expected: Option<string>, done: nat, restored: nat) returns (ok: bool)
      requires Enabled(Value(), Event.Commit(expected, done, restored))
      modifies this
      ensures Value() == Apply(old(Value()), Event.Commit(expected, done, restored))
      ensures ok <==> old(Loads(Value(), expected)) && record.Some? && record.value.committed
      ensures expected.Some? && old(record).Some? && old(record).value.id != expected.value ==>
                !ok && Value() == old(Value())
    {
      hide Loads, Accepts, Exec, PersistProgram, RestoreProgram, Capturing, Goals.Chosen;
      var loaded := Load(expected);
      if !loaded {
        return false;
      }
      assert record.Some? by { LoadsSome(Value(), expected); }
      var r := record.value;
      if r.committed {
        return true;
      }
      var program := PersistOf(r, cloudInit);
      if done == |program| + 1 {
        RunSteps(program, |program|, r.interface);
        record := Some(r.(committed := true));
        origin := if origin.Some? then Some(origin.value.(undone := NOTHING)) else None;
        return true;
      }
      RunSteps(program, done, r.interface);
      RunSteps(UndoOf(r), restored, r.interface);
      return false;
    }

    /** Restore the files, take the live additions away, and only then drop the record. */
    method Abort(expected: Option<string>, done: nat, refused: set<LiveStep>) returns (ok: bool)
      requires Enabled(Value(), Event.Abort(expected, done, refused))
      modifies this
      ensures Value() == Apply(old(Value()), Event.Abort(expected, done, refused))
      ensures old(record).None? ==> ok
      ensures old(record).Some? ==> (ok <==> record.None?)
      ensures expected.Some? && old(record).Some? && old(record).value.id != expected.value ==>
                !ok && Value() == old(Value())
    {
      hide Loads, Accepts, Exec, RestoreProgram, LiveUndo, RunLive, Capturing, Goals.Chosen;
      if record.None? {
        NoLoads(Value(), expected);
        return true;
      }
      var loaded := Load(expected);
      if !loaded {
        return false;
      }
      var r := record.value;
      var undo, commands := UndoOf(r), LiveUndo(GoalsFrom(r));
      origin :=
        if origin.None? then None
        else Some(origin.value.(undone := Undoing(origin.value.undone, undo, Least(done, |undo|))));
      if done < |undo| {
        RunSteps(undo, done, r.interface);
        return false;
      }
      RunSteps(undo, |undo|, r.interface);
      var count := if done - |undo| <= |commands| then done - |undo| else |commands|;
      RunCommands(GoalsFrom(r), commands, count, refused);
      if done < AbortLength(r) {
        return false;
      }
      record := None;
      return true;
    }

    method Finalize(expected: Option<string>) returns (ok: bool)
      modifies this`record
      ensures Value() == Apply(old(Value()), Event.Finalize(expected))
      ensures ok <==> record.None?
      ensures record != old(record) ==> record.None? && old(record).Some? && old(record).value.committed
      ensures expected.Some? && old(record).Some? && old(record).value.id != expected.value ==>
                !ok && Value() == old(Value())
    {
      hide Loads, Accepts;
      if record.None? {
        NoLoads(Value(), expected);
        return true;
      }
      var loaded := Load(expected);
      if !loaded || !record.value.committed {
        return false;
      }
      record := None;
      return true;
    }

    /** Choose what to add to one family. */
    method Choose(f: Family, address: Option<Address>, gateway: Option<string>) returns (goal: Option<Goal>)
      requires gateway.Some? ==> address.Some?
      ensures goal.Some? ==> goal.value.Chosen(f) && goal.value.address == address && goal.value.gateway == gateway
      ensures goal.None? ==> NoTable(f, gateway)
    {
      var added := address.Some? && MustAdd(f, address.value);
      if gateway.None? {
        return Some(Goal(address, added, gateway, None));
      }
      var table := SelectPolicyTable(f);
      if table.None? {
        return None;
      }
      return Some(Goal(address, added, gateway, table));
    }

    /** Capturing raises on a directory in the way, or a property that cannot be read. */
    method CanCapture(job: Job) returns (ok: bool)
      requires IsListing(job.listing, CapturedPaths(job.backend, files))
      ensures ok <==> Capturable(job.backend, Store(files, connections), job.connection)
      ensures ok ==> Capturing(Store(files, connections), job)
    {
      hide CapturedPaths;
      if job.backend.NetworkManager? {
        if job.connection !in connections || !(ROLLBACK_PROPERTIES <= connections[job.connection].Keys) {
          return false;
        }
        ManagerListing(job, files);
      }
      for i := 0 to |job.listing|
        invariant forall k | 0 <= k < i && job.listing[k] in files :: !files[job.listing[k]].Directory?
      {
        if job.listing[i] in files && files[job.listing[i]].Directory? {
          assert job.listing[i] in job.listing;
          return false;
        }
      }
      return true;
    }

    /** Choose, capture, write the record, then change the live state; a table or the capture may be missing. */
    method PrepareAnew(id: string, job: Job, done: nat) returns (goals: Option<Goals>)
      requires record.None? && CanPrepare(Value(), id, job)
      modifies this
      ensures goals.None? ==>
                && Value() == old(Value())
                && (NoTable(live.four, job.settings.gateway4) || NoTable(live.six, job.settings.gateway6)
                    || !Capturable(job.backend, Store(files, connections), job.connection))
      ensures goals.Some? ==>
                var e := Event.Prepare(id, job, goals.value, Least(done, |LiveSteps(goals.value)|));
                Enabled(old(Value()), e) && Value() == Apply(old(Value()), e)
      ensures goals.Some? && done >= |LiveSteps(goals.value)| ==>
                record.Some?
                && Started(live.four, old(live).four, job.settings.static4, job.settings.gateway4, TableOf(Four))
                && Started(live.six, old(live).six, job.settings.static6, job.settings.gateway6, TableOf(Six))
    {
      hide Capturing, Capturable, CapturedPaths, WellFormed, Goal.Chosen, RunLive, LiveSteps, Log, IsIdentity, Started,
        TablesOf;
      var four := Choose(live.four, job.settings.static4, job.settings.gateway4);
      if four.None? {
        return None;
      }
      var six := Choose(live.six, job.settings.static6, job.settings.gateway6);
      if six.None? {
        return None;
      }
      var chosen := Goals(four.value, six.value);
      var captured := CanCapture(job);
      if !captured {
        return None;
      }
      origin := Some(Origin(job, chosen, Store(files, connections), live, NOTHING));
      record := Some(RecordOf(id, false, job, chosen, Log(Store(files, connections), job)));
      ghost var found := live;
      RunCommands(chosen, LiveSteps(chosen), Least(done, |LiveSteps(chosen)|), {});
      if done >= |LiveSteps(chosen)| { PreparedStarts(found, chosen, record.value, job); }
      return Some(chosen);
    }

    /**
     The whole call: abort a pending transition first, prepare anew, and abort again when
     a live step fails. `first` and `last` say how far the two aborts get, `refused` and
     `refusedLast` which commands they are refused.
     */
    method Prepare(
      id: string, job: Job, first: nat, refused: set<LiveStep>, done: nat, last: nat, refusedLast: set<LiveStep>)
      returns (ok: bool, ghost events: seq<Event>)
      requires Enabled(Value(), Event.Abort(None, first, refused))
      requires Apply(Value(), Event.Abort(None, first, refused)).record.None? ==>
                 CanPrepare(Apply(Value(), Event.Abort(None, first, refused)), id, job)
      modifies this
      ensures IsRun(old(Value()), events) && Value() == After(old(Value()), events)
      ensures events != [] && events[0] == Event.Abort(None, first, refused)
      ensures Apply(old(Value()), events[0]).record.Some? ==> |events| == 1 && !ok
      ensures |events| <= 3 && (|events| > 1 ==> events[1].Prepare? && events[1].id == id && events[1].job == job)
      ensures |events| > 2 ==>
                && events[2].Abort? && events[2].expected.None? && events[2].refused == refusedLast
                && events[1].done < |LiveSteps(events[1].goals)|
      ensures ok <==> |events| == 2
      ensures ok ==> events[1].done == |LiveSteps(events[1].goals)| && record.Some? && !record.value.committed
      ensures ok ==>
                var found := Apply(old(Value()), events[0]).live;
                && record.value.id == id && record.value.settings == job.settings
                && Started(live.four, found.four, job.settings.static4, job.settings.gateway4, TableOf(Four))
                && Started(live.six, found.six, job.settings.static6, job.settings.gateway6, TableOf(Six))
    {
      hide Capturing, WellFormed, Goal.Chosen, RunLive, LiveSteps, Log, IsIdentity, Loads, Enabled, Apply, Started;
      ghost var w := Value();
      ghost var abort := Event.Abort(None, first, refused);
      var aborted := Abort(None, first, refused);
      ghost var w1 := Value();
      OneStep(w, abort);
      events := [abort];
      if record.Some? {
        return false, events;
      }
      var goals := PrepareAnew(id, job, done);
      if goals.None? {
        return false, events;
      }
      ghost var prepare := Event.Prepare(id, job, goals.value, Least(done, |LiveSteps(goals.value)|));
      ghost var w2 := Value();
      TwoEvents(w, abort, prepare);
      events := [abort, prepare];
      PreparedRecord(w1, prepare);
      if done >= |LiveSteps(goals.value)| {
        return true, events;
      }
      var length := AbortLength(record.value);
      AbortEnabled(w2, Least(last, length), refusedLast);
      var undone := Abort(None, Least(last, length), refusedLast);
      ghost var again := Event.Abort(None, Least(last, length), refusedLast);
      ThreeEvents(w, abort, prepare, again);
      events := [abort, prepare, again];
      return false, events;
    }
  }

  /** A gateway asks for a table, and no number of the range is free. */
  ghost predicate NoTable(f: Family, gateway: Option<string>) {
    gateway.Some? && forall t: nat | FIRST_TABLE <= t < TABLES_END :: !Free(f, t)
  }

  lemma ManagerListing(job: Job, files: Files)
    requires job.backend.NetworkManager? && IsListing(job.listing, CapturedPaths(job.backend, files))
    ensures job.listing == [CloudInit]
  {
    ListingOfCloudInit(job.listing);
  }

  /** What prepare asks of its caller, and what is read off the host when no record is left. */
  ghost predicate CanPrepare(w: World, id: string, job: Job) {
    && IsListing(job.listing, CapturedPaths(job.backend, w.store.files)) && WellFormed(w.store)
    && job.cloudInit == w.cloudInit && IsIdentity(id) && ValidSettings(job.settings)
    && (job.settings.static4.Some? && job.settings.static6.Some? ==> job.settings.static4 != job.settings.static6)
  }

  /** The live state behind a completed prepare, said of the settings and of the record. */
  lemma PreparedStarts(found: Live, goals: Goals, r: Record, job: Job)
    requires goals.Chosen(found) && Matches(goals, job.settings) && r.tables == TablesOf(goals)
    ensures var live := RunLive(found, goals, LiveSteps(goals), |LiveSteps(goals)|, {});
            && Started(live.four, found.four, job.settings.static4, job.settings.gateway4,
                       if Four in r.tables then Some(r.tables[Four]) else None)
            && Started(live.six, found.six, job.settings.static6, job.settings.gateway6,
                       if Six in r.tables then Some(r.tables[Six]) else None)
  {
    hide Started, Goal.Chosen, RunLive, LiveSteps;
    LiveStepsStart(found, goals, |LiveSteps(goals)|, Four);
    LiveStepsStart(found, goals, |LiveSteps(goals)|, Six);
  }

  lemma PreparedRecord(w: World, e: Event)
    requires Enabled(w, e) && e.Prepare?
    ensures Apply(w, e).record.Some? && !Apply(w, e).record.value.committed
    ensures Apply(w, e).record.value.id == e.id && Apply(w, e).record.value.settings == e.job.settings
  {
    hide RunLive, LiveSteps, Log, Capturing;
  }

  lemma AbortEnabled(w: World, done: nat, refused: set<LiveStep>)
    requires w.record.Some? && done <= AbortLength(w.record.value)
    ensures Enabled(w, Event.Abort(None, done, refused))
  {
    hide Loads, AbortLength;
  }

  lemma LoadsSome(w: World, expected: Option<string>)
    requires Loads(w, expected)
    ensures w.record.Some?
  {
  }

  lemma NoLoads(w: World, expected: Option<string>)
    requires w.record.None?
    ensures !Loads(w, expected)
  {
  }
}
