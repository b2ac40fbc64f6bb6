/**
 Fail-closed preparation of VM data disks. Every command that changes the guest
 is one step; after `budget` steps the run fails or is killed.
 */
module VmStorage {
  import opened Wrappers

  /** Block devices by their place in the listing: a disk, or a child of a disk. */
  datatype Device = Whole(disk: nat) | Piece(disk: nat, part: nat) | Elsewhere(source: string)

  /** What a device holds. Only wipefs sees a bare signature. */
  datatype Content = Blank | Signature | Filesystem(kind: string, uuid: string)

  /** A listed disk; `parts` says of each child whether it is a partition. */
  datatype Disk = Disk(serial: string, size: nat, table: Option<string>, parts: seq<bool>)

  datatype Place = Missing | Symlinked | NotDirectory | Folder(empty: bool)

  datatype Mounted = Mounted(source: Device, kind: string)

  datatype Unit = Unit(uuid: string, kind: string)

  datatype Mount = Mount(name: string, path: string, kind: string, policy: string)

  datatype Declared = Declared(serial: string, size: nat, pool: string, slot: string)

  datatype Marker = Marker(name: string, serial: string, slot: string, uuid: string, kind: string, path: string)

  datatype Record = Record(marker: Marker, partition: Device, source: Device, policy: string, pool: string)

  datatype World = World(
    disks: seq<Disk>, contents: map<Device, Content>, byUuid: map<string, Device>, places: map<string, Place>,
    mounts: map<string, Mounted>, units: map<string, Unit>, markers: map<Device, Marker>, state: Option<seq<Record>>)
  {
    function Content(d: Device): Content { if d in contents then contents[d] else Blank }

    function Place(path: string): Place { if path in places then places[path] else Missing }

    predicate InUse(d: Device) { exists p <- mounts :: mounts[p].source == d }

    /** No child, no table, nothing on it, not mounted. */
    predicate Untouched(i: nat)
      requires i < |disks|
    {
      disks[i].parts == [] && disks[i].table.None? && Content(Whole(i)).Blank? && !InUse(Whole(i))
    }
  }

  // --------------------------------------------------------------------- looking

  function Matches(disks: seq<Disk>, serial: string, n: nat): seq<nat>
    requires n <= |disks|
  {
    if n == 0 then []
    else Matches(disks, serial, n - 1) + (if disks[n - 1].serial == serial then [n - 1] else [])
  }

  /** Exactly one disk with the serial, and not smaller than declared. */
  function FindDisk(w: World, d: Declared): Option<nat> {
    var found := Matches(w.disks, d.serial, |w.disks|);
    if |found| == 1 && found[0] < |w.disks| && w.disks[found[0]].size >= d.size then Some(found[0]) else None
  }

  function UuidOf(w: World, d: Device): Option<string> {
    match w.Content(d) case Filesystem(_, uuid) => Some(uuid) case _ => None
  }

  lemma {:induction false} MatchesExact(disks: seq<Disk>, serial: string, n: nat)
    requires n <= |disks|
    ensures forall i: nat :: i in Matches(disks, serial, n) <==> i < n && disks[i].serial == serial
  {
    if n > 0 { MatchesExact(disks, serial, n - 1); }
  }

  lemma {:induction false} MatchesBySerial(a: seq<Disk>, b: seq<Disk>, serial: string, n: nat)
    requires n <= |a| == |b| && forall i | 0 <= i < n :: a[i].serial == b[i].serial
    ensures Matches(a, serial, n) == Matches(b, serial, n)
  {
    if n > 0 { MatchesBySerial(a, b, serial, n - 1); }
  }

  lemma Found(w: World, d: Declared)
    ensures FindDisk(w, d).Some? ==>
            FindDisk(w, d).value < |w.disks| && w.disks[FindDisk(w, d).value].serial == d.serial
  {
    MatchesExact(w.disks, d.serial, |w.disks|);
    var found := Matches(w.disks, d.serial, |w.disks|);
    if |found| == 1 { assert found[0] in found; }
  }

  /** A disk is found exactly when it alone has the serial and is not smaller than declared. */
  lemma FindDiskExactly(w: World, d: Declared, i: nat)
    ensures FindDisk(w, d) == Some(i) <==>
            && i < |w.disks| && w.disks[i].serial == d.serial && w.disks[i].size >= d.size
            && forall j: nat | j < |w.disks| && j != i :: w.disks[j].serial != d.serial
  {
    MatchesExact(w.disks, d.serial, |w.disks|);
    MatchesDistinct(w.disks, d.serial, |w.disks|);
    var found := Matches(w.disks, d.serial, |w.disks|);
    if |found| == 1 {
      assert forall j: nat :: j in found ==> j == found[0];
      assert found[0] in found;
    } else if |found| > 1 {
      assert found[0] in found && found[1] in found && found[0] != found[1];
    }
  }

  lemma {:induction false} MatchesDistinct(disks: seq<Disk>, serial: string, n: nat)
    requires n <= |disks|
    ensures forall j, k | 0 <= j < k < |Matches(disks, serial, n)| ::
              Matches(disks, serial, n)[j] != Matches(disks, serial, n)[k]
  {
    if n > 0 {
      MatchesDistinct(disks, serial, n - 1);
      MatchesExact(disks, serial, n - 1);
      var before := Matches(disks, serial, n - 1);
      assert forall j | 0 <= j < |before| :: before[j] in before;
    }
  }

  // ---------------------------------------------------------------------- safety

  /**
   Nothing that existed is lost: no content, table, partition or mount changes, and only blank
   devices are written.
   */
  ghost predicate Preserves(a: World, b: World) {
    && |b.disks| == |a.disks|
    && (forall i: nat | i < |a.disks| :: b.disks[i].serial == a.disks[i].serial && b.disks[i].size == a.disks[i].size
                                        && (b.disks[i] == a.disks[i] || a.Untouched(i)))
    && (forall d :: a.Content(d).Blank? || b.Content(d) == a.Content(d))
    && (forall d | a.InUse(d) :: b.Content(d) == a.Content(d))
    && (forall p <- a.mounts :: p in b.mounts && b.mounts[p] == a.mounts[p])
  }

  lemma PreservesNothing(a: World)
    ensures Preserves(a, a)
  {
  }

  lemma InUseStays(a: World, b: World, d: Device)
    requires Preserves(a, b) && a.InUse(d)
    ensures b.InUse(d)
  {
    var p :| p in a.mounts && a.mounts[p].source == d;
    assert p in b.mounts;
  }

  lemma PreservesBoth(a: World, b: World, c: World)
    requires Preserves(a, b) && Preserves(b, c)
    ensures Preserves(a, c)
  {
    forall d | a.InUse(d)
      ensures c.Content(d) == a.Content(d)
    {
      InUseStays(a, b, d);
    }
    forall i: nat | i < |a.disks|
      ensures c.disks[i] == a.disks[i] || a.Untouched(i)
    {
      if b.disks[i] == a.disks[i] && c.disks[i] != b.disks[i] {
        assert b.Untouched(i);
        if a.InUse(Whole(i)) { InUseStays(a, b, Whole(i)); }
      }
    }
  }

  // --------------------------------------------------------------------- changes

  /** One GPT partition on the disk; the space it covers may already hold something, which udev then links. */
  function Partitioned(w: World, i: nat, revealed: Content): World
    requires i < |w.disks|
  {
    w.(disks := w.disks[i := w.disks[i].(table := Some("gpt"), parts := [true])],
       contents := w.contents[Piece(i, 0) := revealed],
       byUuid := if revealed.Filesystem? then w.byUuid[revealed.uuid := Piece(i, 0)] else w.byUuid)
  }

  function Formatted(w: World, d: Device, kind: string, uuid: string): World {
    w.(contents := w.contents[d := Filesystem(kind, uuid)], byUuid := w.byUuid[uuid := d])
  }

  /** `systemctl enable --now`: an active mount unit stays; otherwise the device behind the link is mounted. */
  function Enabled(w: World, path: string): Option<World> {
    if path in w.mounts then Some(w)
    else if path !in w.units || w.units[path].uuid !in w.byUuid then None
    else
      var d := w.byUuid[w.units[path].uuid];
      if w.Content(d) == Filesystem(w.units[path].kind, w.units[path].uuid)
      then Some(w.(mounts := w.mounts[path := Mounted(d, w.units[path].kind)])) else None
  }

  lemma PartitionPreserves(w: World, i: nat, revealed: Content)
    requires i < |w.disks| && w.Untouched(i) && w.Content(Piece(i, 0)).Blank? && !w.InUse(Piece(i, 0))
    ensures Preserves(w, Partitioned(w, i, revealed))
  {
  }

  lemma FormatPreserves(w: World, d: Device, kind: string, uuid: string)
    requires w.Content(d).Blank? && !w.InUse(d)
    ensures Preserves(w, Formatted(w, d, kind, uuid))
  {
  }

  lemma EnablePreserves(w: World, path: string)
    requires Enabled(w, path).Some?
    ensures Preserves(w, Enabled(w, path).value)
  {
  }

  /** Changes beside devices and mounts. */
  lemma OtherwisePreserves(a: World, b: World)
    requires b.disks == a.disks && b.contents == a.contents && b.mounts == a.mounts
    ensures Preserves(a, b)
  {
  }

  /** Devices a disk listing does not show hold nothing and are not mounted. */
  ghost predicate Listed(w: World) {
    forall i: nat, j: nat | i < |w.disks| && j >= |w.disks[i].parts| ::
      w.Content(Piece(i, j)).Blank? && !w.InUse(Piece(i, j))
  }

  // ------------------------------------------------------------------------ done

  /** The mount is active on a filesystem of the declared kind, with unit and marker for its UUID. */
  ghost predicate Done(w: World, m: Mount, d: Declared) {
    && m.path in w.mounts && w.mounts[m.path].kind == m.kind
    && var s := w.mounts[m.path].source;
       && UuidOf(w, s).Some?
       && m.path in w.units && w.units[m.path] == Unit(UuidOf(w, s).value, m.kind)
       && s in w.markers && w.markers[s] == Marker(m.name, d.serial, d.slot, UuidOf(w, s).value, m.kind, m.path)
       && FindDisk(w, d).Some? && UuidOf(w, Piece(FindDisk(w, d).value, 0)) == UuidOf(w, s)
       && KindAt(w, FindDisk(w, d).value, m.kind)
  }

  /** What a new partition shows is nothing, or a filesystem that the mount adopts. */
  predicate Adoptable(revealed: Content, kind: string) {
    revealed.Blank? || (revealed.Filesystem? && revealed.kind == kind)
  }

  /** If the mount's disk still has to be partitioned, what then shows can be used. */
  predicate Fits(w: World, m: Mount, d: Declared, revealed: Content) {
    var found := FindDisk(w, d);
    found.Some? && found.value < |w.disks| && w.disks[found.value].parts == [] ==> Adoptable(revealed, m.kind)
  }

  /** Where a mount stands between a blank disk and completion. */
  ghost predicate OnTrack(w: World, m: Mount, d: Declared) {
    && FindDisk(w, d).Some? && FindDisk(w, d).value < |w.disks|
    && var i := FindDisk(w, d).value;
       var piece := Piece(i, 0);
       && (m.path in w.mounts || w.Place(m.path).Missing? || w.Place(m.path) == Folder(true))
            && !w.Place(m.path).Symlinked?
       && (if w.disks[i].parts == [] then w.Untouched(i) && m.path !in w.mounts
           else
             && w.disks[i].parts == [true] && w.disks[i].table == Some("gpt")
             && (if w.Content(piece).Blank? then !w.InUse(piece) && m.path !in w.mounts
                 else
                   && w.Content(piece).Filesystem? && w.Content(piece).kind == m.kind
                   && w.Content(piece).uuid in w.byUuid && w.byUuid[w.Content(piece).uuid] == piece
                   && (m.path in w.mounts ==> w.mounts[m.path] == Mounted(piece, m.kind))))
  }

  /** Nothing about the path forbids to mount there. */
  predicate PathFits(w: World, m: Mount, d: Declared) {
    && !w.Place(m.path).Symlinked?
    && (m.path !in w.mounts ==> w.Place(m.path).Missing? || w.Place(m.path) == Folder(true))
    && var found := FindDisk(w, d);
       m.path in w.mounts && found.Some? && found.value < |w.disks| ==> w.disks[found.value].parts != []
  }

  predicate Suits(w: World, m: Mount, d: Declared, revealed: Content) {
    Fits(w, m, d, revealed) && PathFits(w, m, d)
  }

  // -------------------------------------------------------------------- locality

  /** Filesystem UUIDs name one device. */
  ghost predicate Unique(w: World) {
    forall d, e | w.Content(d).Filesystem? && w.Content(e).Filesystem? && w.Content(d).uuid == w.Content(e).uuid ::
      d == e
  }

  ghost predicate Fresh(w: World, uuid: string) {
    uuid !in w.byUuid && forall d :: w.Content(d).Filesystem? ==> w.Content(d).uuid != uuid
  }

  /** Only the disk `i`, the path, and the marker on the disk's own filesystem have changed. */
  ghost predicate Local(a: World, b: World, i: nat, path: string) {
    && |b.disks| == |a.disks| && (forall k: nat | k < |a.disks| && k != i :: b.disks[k] == a.disks[k])
    && (forall d | d != Piece(i, 0) :: b.Content(d) == a.Content(d))
    && (forall u <- a.byUuid :: u in b.byUuid && b.byUuid[u] == a.byUuid[u])
    && (forall p | p != path ::
        b.Place(p) == a.Place(p) && (p in b.mounts <==> p in a.mounts) && (p in b.units <==> p in a.units))
    && (forall p <- a.mounts | p != path :: b.mounts[p] == a.mounts[p])
    && (forall p <- a.units | p != path :: b.units[p] == a.units[p])
    && (forall d <- a.markers ::
        d in b.markers
          && (b.markers[d] == a.markers[d] || (UuidOf(b, d).Some? && UuidOf(b, d) == UuidOf(b, Piece(i, 0)))))
  }

  lemma LocalNothing(a: World, i: nat, path: string)
    ensures Local(a, a, i, path)
  {
  }

  lemma LocalBoth(a: World, b: World, c: World, i: nat, path: string)
    requires Local(a, b, i, path) && Local(b, c, i, path) && Preserves(b, c)
    ensures Local(a, c, i, path)
  {
    forall d <- a.markers
      ensures d in c.markers
              && (c.markers[d] == a.markers[d] || (UuidOf(c, d).Some? && UuidOf(c, d) == UuidOf(c, Piece(i, 0))))
    {
      if b.markers[d] != a.markers[d] {
        assert c.Content(d) == b.Content(d) && c.Content(Piece(i, 0)) == b.Content(Piece(i, 0));
      }
    }
  }

  lemma SameDisk(a: World, b: World, d: Declared)
    requires Preserves(a, b)
    ensures FindDisk(b, d) == FindDisk(a, d)
  {
    MatchesBySerial(a.disks, b.disks, d.serial, |a.disks|);
    Found(a, d);
  }

  /** A completed mount stays completed while another one is prepared. */
  lemma DoneStays(a: World, b: World, i: nat, path: string, m: Mount, d: Declared)
    requires Done(a, m, d) && Local(a, b, i, path) && Preserves(a, b) && Unique(b)
    requires m.path != path && FindDisk(a, d) != Some(i)
    ensures Done(b, m, d)
  {
    SameDisk(a, b, d);
    var s, piece := a.mounts[m.path].source, Piece(FindDisk(a, d).value, 0);
    assert b.Content(s) == a.Content(s) && b.Content(piece) == a.Content(piece);
    assert b.Content(s).Filesystem? && b.Content(piece).Filesystem? && b.Content(s).uuid == b.Content(piece).uuid;
    assert s == piece && piece != Piece(i, 0);
  }

  lemma InUseLocal(a: World, b: World, i: nat, path: string, d: Device)
    requires Local(a, b, i, path) && b.InUse(d) && !a.InUse(d)
    ensures path in b.mounts && b.mounts[path].source == d
  {
    var p :| p in b.mounts && b.mounts[p].source == d;
  }

  /** A mount on track stays on track while another one is prepared. */
  lemma TrackStays(a: World, b: World, i: nat, path: string, m: Mount, d: Declared)
    requires OnTrack(a, m, d) && Local(a, b, i, path) && Preserves(a, b)
    requires m.path != path && FindDisk(a, d) != Some(i)
    requires path in b.mounts && path !in a.mounts ==> b.mounts[path].source == Piece(i, 0)
    ensures OnTrack(b, m, d)
  {
    SameDisk(a, b, d);
    var k := FindDisk(a, d).value;
    assert b.disks[k] == a.disks[k];
    if b.InUse(Whole(k)) && !a.InUse(Whole(k)) { InUseLocal(a, b, i, path, Whole(k)); }
    if b.InUse(Piece(k, 0)) && !a.InUse(Piece(k, 0)) { InUseLocal(a, b, i, path, Piece(k, 0)); }
  }

  // ------------------------------------------------------------------- the guest

  /** After the mount's own steps: what else the run needs to know about them. */
  ghost predicate Sane(w: World) { Listed(w) && Unique(w) }

  lemma PartitionIsLocal(w: World, i: nat, revealed: Content, path: string)
    requires i < |w.disks| && w.Untouched(i) && Sane(w)
    requires revealed.Filesystem? ==> Fresh(w, revealed.uuid)
    ensures var after := Partitioned(w, i, revealed);
            Preserves(w, after) && Local(w, after, i, path) && Sane(after)
  {
    PartitionPreserves(w, i, revealed);
    var after := Partitioned(w, i, revealed);
    forall k: nat, j: nat | k < |after.disks| && j >= |after.disks[k].parts|
      ensures after.Content(Piece(k, j)).Blank? && !after.InUse(Piece(k, j))
    {
      assert k == i ==> w.disks[k].parts == [];
      assert w.Content(Piece(k, j)).Blank? && !w.InUse(Piece(k, j));
    }
  }

  lemma FormatIsLocal(w: World, i: nat, kind: string, uuid: string, path: string)
    requires i < |w.disks| && |w.disks[i].parts| == 1 && w.Content(Piece(i, 0)).Blank? && !w.InUse(Piece(i, 0))
    requires Sane(w) && Fresh(w, uuid)
    ensures var after := Formatted(w, Piece(i, 0), kind, uuid);
            Preserves(w, after) && Local(w, after, i, path) && Sane(after)
  {
    FormatPreserves(w, Piece(i, 0), kind, uuid);
    var after := Formatted(w, Piece(i, 0), kind, uuid);
    forall k: nat, j: nat | k < |after.disks| && j >= |after.disks[k].parts|
      ensures after.Content(Piece(k, j)).Blank? && !after.InUse(Piece(k, j))
    {
      assert w.Content(Piece(k, j)).Blank? && !w.InUse(Piece(k, j));
    }
  }

  lemma EnableIsLocal(w: World, i: nat, path: string)
    requires Enabled(w, path).Some? && i < |w.disks| && |w.disks[i].parts| == 1 && Sane(w)
    requires path in w.units && UuidOf(w, Piece(i, 0)) == Some(w.units[path].uuid)
    ensures var after := Enabled(w, path).value;
            Preserves(w, after) && Local(w, after, i, path) && Sane(after)
            && path in after.mounts && (path !in w.mounts ==> after.mounts[path].source == Piece(i, 0))
  {
    EnablePreserves(w, path);
    var after := Enabled(w, path).value;
    if path !in w.mounts { assert w.byUuid[w.units[path].uuid] == Piece(i, 0); }
    forall k: nat, j: nat | k < |after.disks| && j >= |after.disks[k].parts|
      ensures after.Content(Piece(k, j)).Blank? && !after.InUse(Piece(k, j))
    {
      assert w.Content(Piece(k, j)).Blank? && !w.InUse(Piece(k, j));
      if after.InUse(Piece(k, j)) {
        InUseLocal(w, after, i, path, Piece(k, j));
      }
    }
  }

  /** Directories, units and markers. */
  lemma BesideDevices(a: World, b: World, i: nat, path: string)
    requires b.disks == a.disks && b.contents == a.contents && b.mounts == a.mounts && b.byUuid == a.byUuid && Sane(a)
    requires forall p | p != path ::
             b.Place(p) == a.Place(p) && (p in b.units <==> p in a.units) && (p in a.units ==> b.units[p] == a.units[p])
    requires forall d <- a.markers ::
             d in b.markers
               && (b.markers[d] == a.markers[d] || (UuidOf(a, d).Some? && UuidOf(a, d) == UuidOf(a, Piece(i, 0))))
    ensures Preserves(a, b) && Local(a, b, i, path) && Sane(b)
  {
    OtherwisePreserves(a, b);
    assert forall d :: b.Content(d) == a.Content(d) && (a.InUse(d) <==> b.InUse(d));
  }

  class Guest {
    var w: World
    var budget: nat   // steps that still succeed

    constructor (w: World, budget: nat)
      ensures this.w == w && this.budget == budget
    {
      this.w, this.budget := w, budget;
    }

    /** The only partition of the disk; a blank disk gets one first. */
    method PartitionForMount(i: nat, d: Declared, revealed: Content) returns (ok: bool)
      requires FindDisk(w, d) == Some(i)
      requires i < |w.disks|
      modifies this
      ensures w == old(w) || (old(w.Untouched(i)) && w == Partitioned(old(w), i, revealed))
      ensures ok ==> i < |w.disks| && w.disks[i].parts == [true] && w.disks[i].table == Some("gpt")
      ensures old(w.disks[i].parts) == [true] && old(w.disks[i].table) == Some("gpt") ==>
              ok && w == old(w) && budget == old(budget)
      ensures old(w.Untouched(i)) && old(budget) > 0 ==>
              ok && w == Partitioned(old(w), i, revealed) && budget == old(budget) - 1
      ensures old(w.disks[i].parts) == [] && !old(w.Untouched(i)) ==> !ok && w == old(w)
      ensures old(budget) - 1 <= budget <= old(budget)
    {
      Found(w, d);
      if w.disks[i].parts == [] {
        if w.Content(Whole(i)).Filesystem? || w.disks[i].table.Some? || w.InUse(Whole(i)) {
          return false;
        }
        if w.Content(Whole(i)).Signature? {
          return false;
        }
        if budget == 0 {
          return false;
        }
        w, budget := Partitioned(w, i, revealed), budget - 1;
        MatchesBySerial(old(w.disks), w.disks, d.serial, |w.disks|);
        if FindDisk(w, d).None? {
          return false;
        }
      }
      if w.disks[i].table != Some("gpt") || |w.disks[i].parts| != 1 {
        return false;
      }
      return w.disks[i].parts[0];
    }

    /** The filesystem on the partition: adopted when it is of the declared kind, made when nothing is there. */
    method EnsureFilesystem(d: Device, kind: string, uuid: string) returns (r: Option<string>)
      modifies this
      ensures w == old(w) || (old(w.Content(d)).Blank? && !old(w.InUse(d)) && w == Formatted(old(w), d, kind, uuid))
      ensures r.Some? ==> UuidOf(w, d) == r && w.Content(d).Filesystem? && w.Content(d).kind == kind
      ensures old(w.Content(d)).Filesystem? && old(w.Content(d)).kind == kind ==>
              r.Some? && w == old(w) && budget == old(budget)
      ensures old(w.Content(d)).Blank? && !old(w.InUse(d)) && kind in {"ext4", "xfs"} && old(budget) > 0 ==>
                r.Some? && w == Formatted(old(w), d, kind, uuid) && budget == old(budget) - 1
      ensures old(budget) - 1 <= budget <= old(budget)
    {
      match w.Content(d) {
        case Filesystem(current, existing) =>
          return if current == kind then Some(existing) else None;
        case Signature => return None;
        case Blank =>
          if w.InUse(d) || kind !in {"ext4", "xfs"} || budget == 0 {
            return None;
          }
          w, budget := Formatted(w, d, kind, uuid), budget - 1;
          return Some(uuid);
      }
    }

    /** `_verify_active_mount`. */
    method VerifyActive(m: Mount, uuid: string) returns (source: Option<Device>)
      ensures source.Some? <==>
              m.path in w.mounts && w.mounts[m.path].kind == m.kind && UuidOf(w, w.mounts[m.path].source) == Some(uuid)
      ensures source.Some? ==> source.value == w.mounts[m.path].source
    {
      if m.path !in w.mounts || w.mounts[m.path].kind != m.kind || UuidOf(w, w.mounts[m.path].source) != Some(uuid) {
        return None;
      }
      return Some(w.mounts[m.path].source);
    }

    /** The directory to mount on, or a check of what is mounted there. */
    method MakePlace(m: Mount, i: nat, uuid: string) returns (ok: bool)
      requires Sane(w)
      modifies this
      ensures w == old(w) || (m.path !in old(w.mounts) && w == WithFolder(old(w), m.path))
      ensures w == WithFolder(old(w), m.path) ==> old(w.Place(m.path)).Missing? || w == old(w)
      ensures Moved(old(w), w, i, m.path)
      ensures old(budget) - 1 <= budget <= old(budget)
      ensures ok && m.path in w.mounts ==> UuidOf(w, w.mounts[m.path].source) == Some(uuid)
      ensures old(budget) >= 1 && m.path !in old(w.mounts) ==> ok
      ensures old(IsActive(w, m, uuid)) ==> ok && w == old(w) && budget == old(budget)
    {
      hide Preserves, Local, Sane;
      Stays(w, i, m.path);
      if m.path in w.mounts {
        var active := VerifyActive(m, uuid);
        return active.Some?;
      }
      if w.Place(m.path).Missing? {
        if budget == 0 { return false; }
        FolderIsLocal(w, i, m.path);
        w, budget := WithFolder(w, m.path), budget - 1;
      }
      return true;
    }

    /** The unit, and its activation. */
    method Activate(m: Mount, i: nat, uuid: string) returns (ok: bool)
      requires i < |w.disks| && |w.disks[i].parts| == 1 && Sane(w) && UuidOf(w, Piece(i, 0)) == Some(uuid)
      modifies this
      ensures Moved(old(w), w, i, m.path) && SameBut(old(w), w)
      ensures m.path in w.mounts && m.path !in old(w.mounts) ==>
                w.mounts[m.path] == Mounted(Piece(i, 0), m.kind) && w.Content(Piece(i, 0)) == Filesystem(m.kind, uuid)
      ensures old(budget) - 2 <= budget <= old(budget)
      ensures ok ==> m.path in w.mounts && m.path in w.units && w.units[m.path] == Unit(uuid, m.kind)
      ensures old(budget) >= 2 && w.Content(Piece(i, 0)) == Filesystem(m.kind, uuid) && uuid in w.byUuid
              && w.byUuid[uuid] == Piece(i, 0) ==>
                ok
    {
      hide Preserves, Local, Sane;
      Stays(w, i, m.path);
      if budget == 0 { return false; }
      ghost var start := w;
      UnitIsLocal(w, i, m.path, Unit(uuid, m.kind));
      w, budget := WithUnit(w, m.path, Unit(uuid, m.kind)), budget - 1;
      if budget == 0 || Enabled(w, m.path).None? { return false; }
      EnableIsLocal(w, i, m.path);
      MovedBoth(start, w, Enabled(w, m.path).value, i, m.path);
      w, budget := Enabled(w, m.path).value, budget - 1;
      return true;
    }

    /** The last check, and the marker on what is mounted. */
    method Mark(m: Mount, d: Declared, i: nat, uuid: string) returns (source: Option<Device>)
      requires Sane(w) && UuidOf(w, Piece(i, 0)) == Some(uuid)
      modifies this
      ensures Moved(old(w), w, i, m.path)
      ensures w == old(w)
              || (source.Some?
                  && w == WithMarker(old(w), source.value, Marker(m.name, d.serial, d.slot, uuid, m.kind, m.path)))
      ensures old(budget) - 1 <= budget <= old(budget)
      ensures source.Some? ==>
                && m.path in w.mounts && w.mounts[m.path] == Mounted(source.value, m.kind)
                     && UuidOf(w, source.value) == Some(uuid)
                && source.value in w.markers
                     && w.markers[source.value] == Marker(m.name, d.serial, d.slot, uuid, m.kind, m.path)
      ensures old(budget) >= 1 && m.path in w.mounts && w.mounts[m.path] == Mounted(Piece(i, 0), m.kind) ==>
              source.Some?
    {
      hide Preserves, Local, Sane;
      Stays(w, i, m.path);
      source := VerifyActive(m, uuid);
      if source.None? || budget == 0 { return None; }
      MarkerIsLocal(w, i, m.path, source.value, Marker(m.name, d.serial, d.slot, uuid, m.kind, m.path));
      w, budget := WithMarker(w, source.value, Marker(m.name, d.serial, d.slot, uuid, m.kind, m.path)), budget - 1;
    }

    /** From the filesystem on: place, unit, activation, marker. */
    method Finish(m: Mount, d: Declared, i: nat, uuid: string) returns (r: Option<Record>)
      requires i < |w.disks| && |w.disks[i].parts| == 1 && Sane(w) && UuidOf(w, Piece(i, 0)) == Some(uuid)
               && FindDisk(w, d) == Some(i) && KindAt(w, i, m.kind)
      modifies this
      ensures Moved(old(w), w, i, m.path) && budget <= old(budget) && budget >= old(budget) - 4
      ensures w.contents == old(w.contents) && w.byUuid == old(w.byUuid)
      ensures r.Some? ==> Done(w, m, d) && Describes(r.value, w, m, d)
      ensures OnTrack(old(w), m, d) ==>
                OnTrack(w, m, d) && MountedHere(old(w), w, m, d) && (old(budget) >= 4 ==> r.Some?)
    {
      hide *;
      ghost var start := w;
      ghost var tracked := OnTrack(w, m, d);
      if tracked { FormattedTrack(w, m, d, i, uuid); }
      var ok := MakePlace(m, i, uuid);
      PlaceMoves(start, w, i, m, d, uuid);
      MovedIsSane(start, w, i, m.path);
      if !ok { return None; }
      ghost var placed := w;
      ok := Activate(m, i, uuid);
      ActivatedSame(placed, w, i);
      MovedBoth(start, placed, w, i, m.path);
      if tracked { ActivateStaysOnTrack(start, placed, w, i, m, d, uuid); }
      MovedIsSane(start, w, i, m.path);
      if !ok { return None; }
      ghost var active := w;
      var source := Mark(m, d, i, uuid);
      MarkedSame(active, w, i, m.path, source, Marker(m.name, d.serial, d.slot, uuid, m.kind, m.path));
      MovedBoth(start, active, w, i, m.path);
      if tracked { MarkStaysOnTrack(start, active, w, i, m, d); }
      if source.None? { return None; }
      SameDiskMoved(start, w, i, m.path, d);
      KindBySame(start, w, i, m.kind);
      r := Some(Record(Marker(m.name, d.serial, d.slot, uuid, m.kind, m.path), Piece(i, 0), source.value, m.policy,
                       d.pool));
      IsDone(w, m, d, i, uuid, source.value, r.value);
    }

    /** The partition and its filesystem. */
    method PrepareDisk(
      m: Mount, d: Declared, i: nat, uuid: string, revealed: Content) returns (existing: Option<string>)
      requires Sane(w) && Fresh(w, uuid) && (revealed.Filesystem? ==> Fresh(w, revealed.uuid) && revealed.uuid != uuid)
      requires FindDisk(w, d) == Some(i)
      modifies this
      ensures Moved(old(w), w, i, m.path) && w.mounts == old(w.mounts) && old(budget) - 2 <= budget <= old(budget)
      ensures forall u | u != uuid && (revealed.Filesystem? ==> u != revealed.uuid) && Fresh(old(w), u) :: Fresh(w, u)
      ensures existing.Some? ==>
                i < |w.disks| && |w.disks[i].parts| == 1 && UuidOf(w, Piece(i, 0)) == existing && KindAt(w, i, m.kind)
                && Fits(old(w), m, d, revealed)
      ensures OnTrack(old(w), m, d) && Fits(old(w), m, d, revealed) && m.kind in {"ext4", "xfs"} ==>
                OnTrack(w, m, d) && (old(budget) >= 2 ==> existing.Some?)
    {
      hide *;
      ghost var start := w;
      ghost var tracked := OnTrack(w, m, d) && Fits(w, m, d, revealed) && m.kind in {"ext4", "xfs"};
      if tracked { TrackMeans(w, m, d); }
      Found(w, d);
      var ok := PartitionForMount(i, d, revealed);
      PartitionMoves(start, w, i, revealed, m.path);
      MovedIsSane(start, w, i, m.path);
      OthersFresh(start, w, w, i, revealed, m.kind, uuid);
      if tracked { PartitionStaysOnTrack(start, w, i, m, d, revealed); }
      if !ok { return None; }
      ghost var before := w;
      if tracked { TrackPiece(w, m, d, i); }
      FreshStays(start, w, i, revealed, uuid);
      existing := EnsureFilesystem(Piece(i, 0), m.kind, uuid);
      FormatMoves(before, w, i, m.kind, uuid, m.path);
      MovedBoth(start, before, w, i, m.path);
      OthersFresh(start, before, w, i, revealed, m.kind, uuid);
      if tracked { FormatStaysOnTrack(before, w, i, m, d, uuid); }
      if existing.Some? {
        KindIs(w, i, m.kind);
        UsedFits(start, before, w, i, m, d, revealed, uuid);
      }
    }

    /**
     One mount. Whatever happens, nothing that existed is lost and nothing beside this
     mount changes; on success it is done; on track it stays on track, and succeeds
     when no step fails.
     */
    method PrepareMount(m: Mount, d: Declared, uuid: string, revealed: Content) returns (r: Option<Record>)
      requires Sane(w) && Fresh(w, uuid) && (revealed.Filesystem? ==> Fresh(w, revealed.uuid) && revealed.uuid != uuid)
      modifies this
      ensures Stepped(old(w), w, m, d) && (FindDisk(old(w), d).None? ==> r.None?)
      ensures Sane(w) && budget <= old(budget)
      ensures forall u | u != uuid && (revealed.Filesystem? ==> u != revealed.uuid) && Fresh(old(w), u) :: Fresh(w, u)
      ensures old(w.Place(m.path)).Symlinked? ==> r.None? && w == old(w) && budget == old(budget)
      ensures m.path !in old(w.mounts)
              && (old(w.Place(m.path)).NotDirectory? || old(w.Place(m.path)) == Folder(false)) ==>
                r.None? && w == old(w) && budget == old(budget)
      ensures m.path in old(w.mounts) && FindDisk(old(w), d).Some? && FindDisk(old(w), d).value < |old(w.disks)|
              && old(w.disks)[FindDisk(old(w), d).value].parts == [] ==>
                r.None? && w == old(w) && budget == old(budget)
      ensures r.Some? ==> Done(w, m, d) && Describes(r.value, w, m, d) && Suits(old(w), m, d, revealed)
      ensures OnTrack(old(w), m, d) && Fits(old(w), m, d, revealed) && m.kind in {"ext4", "xfs"} ==>
                OnTrack(w, m, d) && MountedHere(old(w), w, m, d)
                  && (old(budget) >= 6 ==> r.Some? && budget >= old(budget) - 6)
    {
      hide *;
      ghost var start := w;
      ghost var tracked := OnTrack(w, m, d) && Fits(w, m, d, revealed) && m.kind in {"ext4", "xfs"};
      if tracked { TrackMeans(w, m, d); }
      SuitsWhen(w, m, d, revealed);
      SameMountsHere(w, w, m, d);
      var place, mounted := w.Place(m.path), m.path in w.mounts;
      var found := FindDisk(w, d);
      if found.None? {
        SteppedNot(w, m, d);
        return None;
      }
      var i := found.value;
      Found(w, d);
      Stays(w, i, m.path);
      SteppedBy(w, w, m, d, i);
      if place.Symlinked? || (!mounted && (place.NotDirectory? || place == Folder(false))) { return None; }
      if mounted && w.disks[i].parts == [] { return None; }
      var existing := PrepareDisk(m, d, i, uuid, revealed);
      SteppedBy(start, w, m, d, i);
      MovedIsSane(start, w, i, m.path);
      SameMountsHere(start, w, m, d);
      if existing.None? { return None; }
      ghost var before := w;
      SameDiskMoved(start, w, i, m.path, d);
      r := Finish(m, d, i, existing.value);
      FreshBySame(before, w);
      MovedBoth(start, before, w, i, m.path);
      MovedIsSane(start, w, i, m.path);
      SteppedBy(start, w, m, d, i);
      if tracked { HereThrough(start, before, w, m, d); }
    }

    /**
     All mounts in order, then the state file. Every step that is taken preserves what
     existed; a run that succeeds, from whatever state, has completed every mount; and
     from a state on track, however many runs were killed before, a run in which no step
     fails succeeds exactly when every new partition shows nothing or a filesystem that its
     mount adopts.
     */
    method SetupVmStorage(mounts: seq<Mount>, declared: map<string, Declared>, supplies: seq<Supply>) returns (ok: bool)
      requires Sane(w) && |supplies| == |mounts| && Supplied(w, supplies) && Distinct(mounts, declared)
      modifies this
      ensures Sane(w) && Preserves(old(w), w) && OnlyDeclared(old(w), w, mounts, declared)
      ensures StaysFresh(old(w), w, supplies)
      ensures ok && mounts != [] ==>
                && w.state.Some? && |w.state.value| == |mounts|
                && forall k | 0 <= k < |mounts| ::
                     mounts[k].name in declared && Done(w, mounts[k], declared[mounts[k].name])
                     && Describes(w.state.value[k], w, mounts[k], declared[mounts[k].name])
      ensures ok ==> AllSuit(old(w), mounts, declared, supplies)
      ensures AllOnTrack(old(w), mounts, declared) && AllFit(old(w), mounts, declared, supplies) ==>
                AllOnTrack(w, mounts, declared) && (old(budget) >= 6 * |mounts| + 2 ==> ok)
    {
      hide Preserves, Local, Sane, OnTrack, Done, Moved, Fresh, Describes, MountedHere, OnlyDeclared, Supplied,
        Distinct, AllOnTrack, StaysFresh, Fits, Suits, FitSoFar, AllFit, AllSuit;
      ghost var start := w;
      NothingTaken(w, supplies);
      ghost var tracked := AllOnTrack(w, mounts, declared) && AllFit(w, mounts, declared, supplies);
      NoneFit(w, mounts, declared, supplies);
      if tracked { TracksSuit(w, mounts, declared, supplies); }
      PreservesNothing(w);
      NothingElse(w, mounts, declared);
      if mounts == [] { return true; }
      if budget == 0 { return false; }
      budget := budget - 1;
      var records: seq<Record> := [];
      NoneDone(w, mounts, declared);
      for k := 0 to |mounts|
        invariant Sane(w) && Preserves(start, w) && OnlyDeclared(start, w, mounts, declared)
        invariant Supplied(w, supplies[k..]) && |records| == k
        invariant StaysFresh(start, w, supplies)
        invariant DoneUpTo(w, mounts, declared, records, k)
        invariant FitSoFar(start, w, mounts, declared, supplies, k)
        invariant tracked ==>
                    && AllOnTrack(w, mounts, declared)
                    && (old(budget) >= 6 * |mounts| + 2 ==> budget >= 6 * (|mounts| - k) + 1)
      {
        hide DoneUpTo;
        if mounts[k].name !in declared {
          if tracked { TrackOf(w, mounts, declared, k); }
          return false;
        }
        var m, d := mounts[k], declared[mounts[k].name];
        if tracked {
          TrackOf(w, mounts, declared, k);
          KindOf(mounts, declared, k);
          NextFits(start, w, mounts, declared, supplies, k);
        }
        NextSupply(w, supplies, k);
        ghost var before := w;
        var r := PrepareMount(m, d, supplies[k].uuid, supplies[k].revealed);
        StepPreserves(before, w, m, d);
        PreservesBoth(start, before, w);
        StepOnlyDeclared(start, before, w, mounts, declared, m, d);
        RestSupplied(before, w, supplies, k);
        MoreTaken(start, before, w, supplies, k);
        if tracked { StepKeepsTracks(before, w, mounts, declared, k); }
        if w != before || r.Some? { StepKeepsDone(before, w, mounts, declared, records, k); }
        if r.None? { return false; }
        OneMoreDone(w, mounts, declared, records, k, r.value);
        OneMoreFits(start, before, w, mounts, declared, supplies, k);
        records := records + [r.value];
      }
      AllHaveFit(start, w, mounts, declared, supplies);
      if budget == 0 { return false; }
      StateFile(start, w, mounts, declared, records, tracked);
      NothingTakenByState(start, w, records, supplies);
      w, budget := WithState(w, records), budget - 1;
      AllDone(w, mounts, declared, records);
      return true;
    }

    /**
     Crashes and reruns: from a state on track (blank disks, in particular), any number
     of runs killed anywhere and then one that is not leave every mount completed, if no
     new partition shows what its mount cannot use; and nothing that existed before the
     first run is lost.
     */
    method RerunUntilDone(
      mounts: seq<Mount>, declared: map<string, Declared>, budgets: seq<nat>, rounds: seq<seq<Supply>>)
      requires Sane(w) && Distinct(mounts, declared) && mounts != [] && AllOnTrack(w, mounts, declared)
      requires |rounds| == |budgets| > 0 && budgets[|budgets| - 1] >= 6 * |mounts| + 2
      requires forall r <- rounds :: |r| == |mounts| && AllFit(w, mounts, declared, r)
      requires Supplied(w, Concat(rounds))
      modifies this
      ensures Sane(w) && Preserves(old(w), w) && OnlyDeclared(old(w), w, mounts, declared)
      ensures w.state.Some? && |w.state.value| == |mounts|
      ensures forall k | 0 <= k < |mounts| ::
                mounts[k].name in declared && Done(w, mounts[k], declared[mounts[k].name])
                && Describes(w.state.value[k], w, mounts[k], declared[mounts[k].name])
    {
      hide Preserves, Sane, OnTrack, Done, Describes, OnlyDeclared, Supplied, Distinct, AllOnTrack, StaysFresh,
        Concat, AllFit;
      ghost var start := w;
      PreservesNothing(w);
      NothingElse(w, mounts, declared);
      assert rounds[0..] == rounds;
      for r := 0 to |budgets|
        invariant Sane(w) && Preserves(start, w) && OnlyDeclared(start, w, mounts, declared)
                  && AllOnTrack(w, mounts, declared)
        invariant Supplied(w, Concat(rounds[r..]))
        invariant r == |budgets| ==>
                    && w.state.Some? && |w.state.value| == |mounts|
                    && forall k | 0 <= k < |mounts| ::
                         mounts[k].name in declared && Done(w, mounts[k], declared[mounts[k].name])
                         && Describes(w.state.value[k], w, mounts[k], declared[mounts[k].name])
      {
        assert rounds[r] in rounds;
        FirstRound(rounds, r);
        FirstSupplied(w, rounds[r], Concat(rounds[r + 1..]));
        FitLater(start, w, mounts, declared, rounds[r]);
        ghost var before := w;
        budget := budgets[r];
        var ok := SetupVmStorage(mounts, declared, rounds[r]);
        PreservesBoth(start, before, w);
        OnlyDeclaredBoth(start, before, w, mounts, declared);
        LaterSupplied(before, w, rounds[r], Concat(rounds[r + 1..]));
      }
    }
  }

  predicate KindAt(w: World, i: nat, kind: string) {
    w.Content(Piece(i, 0)).Filesystem? && w.Content(Piece(i, 0)).kind == kind
  }

  predicate IsActive(w: World, m: Mount, uuid: string) {
    m.path in w.mounts && w.mounts[m.path].kind == m.kind && UuidOf(w, w.mounts[m.path].source) == Some(uuid)
  }

  function WithFolder(w: World, path: string): World {
    w.(places := w.places[path := Folder(true)])
  }

  function WithUnit(w: World, path: string, unit: Unit): World {
    w.(units := w.units[path := unit])
  }

  function WithMarker(w: World, source: Device, marker: Marker): World {
    w.(markers := w.markers[source := marker])
  }

  /** A step or steps that lose nothing and stay local. */
  ghost predicate Moved(a: World, b: World, i: nat, path: string) {
    Preserves(a, b) && Local(a, b, i, path) && Sane(b)
  }

  /** Mounting changes no device and no directory. */
  ghost predicate SameBut(a: World, b: World) {
    b.disks == a.disks && b.contents == a.contents && b.byUuid == a.byUuid && b.places == a.places
      && b.markers == a.markers
  }

  lemma Stays(w: World, i: nat, path: string)
    requires Sane(w)
    ensures Moved(w, w, i, path)
  {
    PreservesNothing(w);
    LocalNothing(w, i, path);
  }

  lemma MovedBoth(a: World, b: World, c: World, i: nat, path: string)
    requires Moved(a, b, i, path) && Moved(b, c, i, path)
    ensures Moved(a, c, i, path)
  {
    hide Preserves, Local, Sane;
    PreservesBoth(a, b, c);
    LocalBoth(a, b, c, i, path);
  }

  lemma FolderIsLocal(w: World, i: nat, path: string)
    requires Sane(w)
    ensures Moved(w, WithFolder(w, path), i, path)
  {
    hide Preserves, Local, Sane;
    BesideDevices(w, WithFolder(w, path), i, path);
  }

  lemma UnitIsLocal(w: World, i: nat, path: string, unit: Unit)
    requires Sane(w)
    ensures Moved(w, WithUnit(w, path, unit), i, path)
  {
    hide Preserves, Local, Sane;
    BesideDevices(w, WithUnit(w, path, unit), i, path);
  }

  lemma MarkerIsLocal(w: World, i: nat, path: string, source: Device, marker: Marker)
    requires Sane(w) && UuidOf(w, source).Some? && UuidOf(w, source) == UuidOf(w, Piece(i, 0))
    ensures Moved(w, WithMarker(w, source, marker), i, path)
  {
    hide Preserves, Local, Sane;
    BesideDevices(w, WithMarker(w, source, marker), i, path);
  }

  /** The record written to the state file. */
  ghost predicate Describes(r: Record, w: World, m: Mount, d: Declared) {
    && r.marker.name == m.name && r.marker.serial == d.serial && r.marker.kind == m.kind && r.marker.path == m.path
    && r.marker.slot == d.slot && FindDisk(w, d).Some? && r.partition == Piece(FindDisk(w, d).value, 0)
    && m.path in w.mounts && r.source == w.mounts[m.path].source && UuidOf(w, r.source) == Some(r.marker.uuid)
    && r.policy == m.policy && r.pool == d.pool
  }

  /** If the path has become mounted, then from the declared disk. */
  ghost predicate MountedHere(a: World, b: World, m: Mount, d: Declared) {
    m.path in b.mounts && m.path !in a.mounts ==>
      FindDisk(a, d).Some? && b.mounts[m.path].source == Piece(FindDisk(a, d).value, 0)
  }

  lemma TrackMeans(w: World, m: Mount, d: Declared)
    requires OnTrack(w, m, d)
    ensures FindDisk(w, d).Some? && FindDisk(w, d).value < |w.disks|
    ensures m.path !in w.mounts ==> w.Place(m.path).Missing? || w.Place(m.path) == Folder(true)
    ensures !w.Place(m.path).Symlinked?
    ensures var i := FindDisk(w, d).value;
            (w.disks[i].parts == [] ==> w.Untouched(i) && m.path !in w.mounts)
            && (w.disks[i].parts != [] ==> w.disks[i].parts == [true] && w.disks[i].table == Some("gpt"))
  {
  }

  lemma MovedIsSane(a: World, b: World, i: nat, path: string)
    requires Moved(a, b, i, path)
    ensures Sane(b)
  {
  }

  lemma PartitionMoves(a: World, b: World, i: nat, revealed: Content, path: string)
    requires Sane(a) && i < |a.disks| && (revealed.Filesystem? ==> Fresh(a, revealed.uuid))
    requires b == a || (a.Untouched(i) && b == Partitioned(a, i, revealed))
    ensures Moved(a, b, i, path) && b.mounts == a.mounts
  {
    hide Preserves, Local, Sane, Fresh;
    if b == a { Stays(a, i, path); } else { PartitionIsLocal(a, i, revealed, path); }
  }

  lemma FormatMoves(a: World, b: World, i: nat, kind: string, uuid: string, path: string)
    requires Sane(a) && Fresh(a, uuid) && i < |a.disks| && |a.disks[i].parts| == 1
    requires b == a || (a.Content(Piece(i, 0)).Blank? && !a.InUse(Piece(i, 0))
                        && b == Formatted(a, Piece(i, 0), kind, uuid))
    ensures Moved(a, b, i, path) && b.disks == a.disks && b.mounts == a.mounts
  {
    hide Preserves, Local, Sane, Fresh;
    if b == a { Stays(a, i, path); } else { FormatIsLocal(a, i, kind, uuid, path); }
  }

  lemma FreshStays(a: World, b: World, i: nat, revealed: Content, uuid: string)
    requires Fresh(a, uuid) && (revealed.Filesystem? ==> revealed.uuid != uuid) && i < |a.disks|
    requires b == a || b == Partitioned(a, i, revealed)
    ensures Fresh(b, uuid)
  {
    forall d | b.Content(d).Filesystem?
      ensures b.Content(d).uuid != uuid
    {
      assert b.Content(d) == a.Content(d) || b.Content(d) == revealed;
    }
  }

  lemma SameDiskMoved(a: World, b: World, i: nat, path: string, d: Declared)
    requires Moved(a, b, i, path)
    ensures FindDisk(b, d) == FindDisk(a, d)
  {
    hide Preserves, Local, Sane;
    SameDisk(a, b, d);
  }

  lemma SameMountsHere(a: World, b: World, m: Mount, d: Declared)
    requires b.mounts == a.mounts
    ensures MountedHere(a, b, m, d)
  {
  }

  lemma HereThrough(a: World, b: World, c: World, m: Mount, d: Declared)
    requires b.mounts == a.mounts && FindDisk(b, d) == FindDisk(a, d) && MountedHere(b, c, m, d)
    ensures MountedHere(a, c, m, d)
  {
  }

  lemma PartitionStaysOnTrack(a: World, b: World, i: nat, m: Mount, d: Declared, revealed: Content)
    requires OnTrack(a, m, d) && FindDisk(a, d) == Some(i) && Sane(a) && Fits(a, m, d, revealed)
    requires b == a || (a.Untouched(i) && b == Partitioned(a, i, revealed))
    ensures OnTrack(b, m, d) && b.mounts == a.mounts && FindDisk(b, d) == Some(i)
  {
    hide Unique;
    if b != a {
      MatchesBySerial(a.disks, b.disks, d.serial, |a.disks|);
      assert a.Content(Piece(i, 0)).Blank? && !a.InUse(Piece(i, 0));
      assert b.disks[i].parts == [true] && !b.InUse(Piece(i, 0)) && b.Content(Piece(i, 0)) == revealed;
    }
  }

  /** Content that was revealed is never written over, so success means that it was of use. */
  lemma UsedFits(a: World, b: World, c: World, i: nat, m: Mount, d: Declared, revealed: Content, uuid: string)
    requires FindDisk(a, d) == Some(i) && i < |a.disks| && KindAt(c, i, m.kind)
    requires b == a || (a.Untouched(i) && b == Partitioned(a, i, revealed))
    requires i < |b.disks| && |b.disks[i].parts| == 1
    requires c == b || (b.Content(Piece(i, 0)).Blank? && c == Formatted(b, Piece(i, 0), m.kind, uuid))
    ensures Fits(a, m, d, revealed)
  {
    if b != a { assert b.Content(Piece(i, 0)) == revealed; }
  }

  lemma FormatStaysOnTrack(a: World, b: World, i: nat, m: Mount, d: Declared, uuid: string)
    requires OnTrack(a, m, d) && FindDisk(a, d) == Some(i) && |a.disks[i].parts| == 1
    requires b == a || (a.Content(Piece(i, 0)).Blank? && !a.InUse(Piece(i, 0))
                        && b == Formatted(a, Piece(i, 0), m.kind, uuid))
    ensures OnTrack(b, m, d) && b.mounts == a.mounts && FindDisk(b, d) == Some(i)
  {
  }

  lemma FormattedTrack(w: World, m: Mount, d: Declared, i: nat, uuid: string)
    requires OnTrack(w, m, d) && FindDisk(w, d) == Some(i) && UuidOf(w, Piece(i, 0)) == Some(uuid) && i < |w.disks|
             && |w.disks[i].parts| == 1
    ensures w.Content(Piece(i, 0)) == Filesystem(m.kind, uuid) && uuid in w.byUuid && w.byUuid[uuid] == Piece(i, 0)
    ensures m.path in w.mounts ==> w.mounts[m.path] == Mounted(Piece(i, 0), m.kind) && IsActive(w, m, uuid)
  {
  }

  lemma PlaceMoves(a: World, b: World, i: nat, m: Mount, d: Declared, uuid: string)
    requires b == a || (m.path !in a.mounts && b == WithFolder(a, m.path))
    ensures b.disks == a.disks && b.contents == a.contents && b.mounts == a.mounts && b.byUuid == a.byUuid
    ensures FindDisk(b, d) == FindDisk(a, d) && UuidOf(b, Piece(i, 0)) == UuidOf(a, Piece(i, 0))
    ensures b.Content(Piece(i, 0)) == a.Content(Piece(i, 0))
    ensures OnTrack(a, m, d) ==> OnTrack(b, m, d)
    ensures MountedHere(a, b, m, d)
  {
  }

  lemma ActivateStaysOnTrack(a: World, b: World, c: World, i: nat, m: Mount, d: Declared, uuid: string)
    requires OnTrack(a, m, d) && OnTrack(b, m, d) && b.mounts == a.mounts && FindDisk(a, d) == Some(i)
             && FindDisk(b, d) == Some(i)
    requires SameBut(b, c) && Moved(b, c, i, m.path) && i < |b.disks| && |b.disks[i].parts| == 1
    requires b.Content(Piece(i, 0)) == Filesystem(m.kind, uuid)
    requires m.path in c.mounts && m.path !in b.mounts ==> c.mounts[m.path] == Mounted(Piece(i, 0), m.kind)
    ensures OnTrack(c, m, d) && MountedHere(a, c, m, d)
    ensures m.path in c.mounts ==> c.mounts[m.path] == Mounted(Piece(i, 0), m.kind)
  {
  }

  lemma ActivatedSame(a: World, b: World, i: nat)
    requires SameBut(a, b)
    ensures b.disks == a.disks && b.contents == a.contents && b.byUuid == a.byUuid
            && UuidOf(b, Piece(i, 0)) == UuidOf(a, Piece(i, 0))
    ensures b.Content(Piece(i, 0)) == a.Content(Piece(i, 0))
  {
  }

  lemma MarkedSame(a: World, b: World, i: nat, path: string, source: Option<Device>, marker: Marker)
    requires b == a || (source.Some? && b == WithMarker(a, source.value, marker))
    ensures b.disks == a.disks && b.contents == a.contents && b.byUuid == a.byUuid
            && UuidOf(b, Piece(i, 0)) == UuidOf(a, Piece(i, 0))
    ensures b.units == a.units && b.mounts == a.mounts && b.places == a.places
  {
  }

  lemma TrackPiece(w: World, m: Mount, d: Declared, i: nat)
    requires OnTrack(w, m, d) && FindDisk(w, d) == Some(i) && |w.disks[i].parts| == 1
    ensures w.Content(Piece(i, 0)).Blank? ==> !w.InUse(Piece(i, 0))
    ensures !w.Content(Piece(i, 0)).Blank? ==>
            w.Content(Piece(i, 0)).Filesystem? && w.Content(Piece(i, 0)).kind == m.kind
  {
  }

  lemma KindIs(w: World, i: nat, kind: string)
    requires w.Content(Piece(i, 0)).Filesystem? && w.Content(Piece(i, 0)).kind == kind
    ensures KindAt(w, i, kind)
  {
  }

  lemma KindBySame(a: World, b: World, i: nat, kind: string)
    requires KindAt(a, i, kind) && b.contents == a.contents
    ensures KindAt(b, i, kind)
  {
  }

  lemma SteppedBy(a: World, b: World, m: Mount, d: Declared, i: nat)
    requires FindDisk(a, d) == Some(i) && Moved(a, b, i, m.path)
    ensures Stepped(a, b, m, d)
  {
    hide Moved;
  }

  lemma SteppedNot(a: World, m: Mount, d: Declared)
    requires FindDisk(a, d).None?
    ensures Stepped(a, a, m, d)
  {
  }

  lemma MarkStaysOnTrack(a: World, b: World, c: World, i: nat, m: Mount, d: Declared)
    requires OnTrack(b, m, d) && MountedHere(a, b, m, d)
    requires c == b || (c.disks == b.disks && c.contents == b.contents && c.mounts == b.mounts && c.byUuid == b.byUuid
                        && c.places == b.places)
    ensures OnTrack(c, m, d) && MountedHere(a, c, m, d)
  {
  }

  lemma IsDone(w: World, m: Mount, d: Declared, i: nat, uuid: string, source: Device, r: Record)
    requires FindDisk(w, d) == Some(i) && UuidOf(w, Piece(i, 0)) == Some(uuid)
    requires m.path in w.mounts && w.mounts[m.path] == Mounted(source, m.kind) && UuidOf(w, source) == Some(uuid)
    requires m.path in w.units && w.units[m.path] == Unit(uuid, m.kind) && KindAt(w, i, m.kind)
    requires source in w.markers && w.markers[source] == Marker(m.name, d.serial, d.slot, uuid, m.kind, m.path)
    requires r == Record(Marker(m.name, d.serial, d.slot, uuid, m.kind, m.path), Piece(i, 0), source, m.policy, d.pool)
    ensures Done(w, m, d) && Describes(r, w, m, d)
  {
  }

  lemma OthersFresh(a: World, b: World, c: World, i: nat, revealed: Content, kind: string, uuid: string)
    requires i < |a.disks| && (b == a || b == Partitioned(a, i, revealed))
    requires c == b || c == Formatted(b, Piece(i, 0), kind, uuid)
    ensures forall u | u != uuid && (revealed.Filesystem? ==> u != revealed.uuid) && Fresh(a, u) :: Fresh(c, u)
  {
    forall u | u != uuid && (revealed.Filesystem? ==> u != revealed.uuid) && Fresh(a, u)
      ensures Fresh(c, u)
    {
      forall d | c.Content(d).Filesystem?
        ensures c.Content(d).uuid != u
      {
        assert c.Content(d) == a.Content(d) || c.Content(d) == revealed || c.Content(d) == Filesystem(kind, uuid);
      }
    }
  }

  lemma FreshBySame(a: World, b: World)
    requires b.contents == a.contents && b.byUuid == a.byUuid
    ensures forall u | Fresh(a, u) :: Fresh(b, u)
  {
    assert forall d :: b.Content(d) == a.Content(d);
  }

  // --------------------------------------------------------------- the whole run

  /** What the guest comes up with for one mount: a new UUID, and what a new partition shows. */
  datatype Supply = Supply(uuid: string, revealed: Content)

  ghost predicate Supplied(w: World, supplies: seq<Supply>) {
    && (forall k | 0 <= k < |supplies| ::
          Fresh(w, supplies[k].uuid)
          && (supplies[k].revealed.Filesystem? ==>
              Fresh(w, supplies[k].revealed.uuid) && supplies[k].revealed.uuid != supplies[k].uuid))
    && (forall j, k | 0 <= j < k < |supplies| :: Apart(supplies[j], supplies[k]))
  }

  predicate Apart(s: Supply, t: Supply) {
    && s.uuid != t.uuid
    && (s.revealed.Filesystem? ==> s.revealed.uuid != t.uuid)
    && (t.revealed.Filesystem? ==> t.revealed.uuid != s.uuid)
    && (s.revealed.Filesystem? && t.revealed.Filesystem? ==> s.revealed.uuid != t.revealed.uuid)
  }

  /** Validated settings: names, paths and serials are distinct, and kinds are supported. */
  ghost predicate Distinct(mounts: seq<Mount>, declared: map<string, Declared>) {
    && (forall j, k | 0 <= j < k < |mounts| :: mounts[j].path != mounts[k].path && mounts[j].name != mounts[k].name)
    && (forall n <- declared, o <- declared | n != o :: declared[n].serial != declared[o].serial)
    && (forall m <- mounts :: m.kind in {"ext4", "xfs"})
  }

  ghost predicate AllOnTrack(w: World, mounts: seq<Mount>, declared: map<string, Declared>) {
    forall k | 0 <= k < |mounts| :: mounts[k].name in declared && OnTrack(w, mounts[k], declared[mounts[k].name])
  }

  /** Disks without a declared serial, and what is on them, are as they were. */
  ghost predicate OnlyDeclared(a: World, b: World, mounts: seq<Mount>, declared: map<string, Declared>) {
    |b.disks| == |a.disks|
    && forall i: nat | i < |a.disks| && (forall n <- declared :: declared[n].serial != a.disks[i].serial) ::
         b.disks[i] == a.disks[i] && b.Content(Whole(i)) == a.Content(Whole(i)) && forall j: nat ::
           b.Content(Piece(i, j)) == a.Content(Piece(i, j))
  }

  /** Every mount of the run fits what its new partition would show. */
  ghost predicate AllFit(w: World, mounts: seq<Mount>, declared: map<string, Declared>, supplies: seq<Supply>)
    requires |supplies| == |mounts|
  {
    forall k | 0 <= k < |mounts| && mounts[k].name in declared ::
      Fits(w, mounts[k], declared[mounts[k].name], supplies[k].revealed)
  }

  ghost predicate AllSuit(w: World, mounts: seq<Mount>, declared: map<string, Declared>, supplies: seq<Supply>)
    requires |supplies| == |mounts|
  {
    forall k | 0 <= k < |mounts| && mounts[k].name in declared ::
      Suits(w, mounts[k], declared[mounts[k].name], supplies[k].revealed)
  }

  /** Before mount `k`: the earlier ones fitted, and the disks of the others are as at the start. */
  ghost predicate FitSoFar(
    start: World, w: World, mounts: seq<Mount>, declared: map<string, Declared>, supplies: seq<Supply>, k: nat)
    requires |supplies| == |mounts|
  {
    forall j | 0 <= j < |mounts| && mounts[j].name in declared ::
      var fitted := Suits(start, mounts[j], declared[mounts[j].name], supplies[j].revealed);
      if j < k then fitted else fitted == Suits(w, mounts[j], declared[mounts[j].name], supplies[j].revealed)
  }

  ghost predicate DoneUpTo(
    w: World, mounts: seq<Mount>, declared: map<string, Declared>, records: seq<Record>, k: nat)
  {
    k <= |mounts| && |records| == k
    && forall j | 0 <= j < k ::
         mounts[j].name in declared && Done(w, mounts[j], declared[mounts[j].name])
         && Describes(records[j], w, mounts[j], declared[mounts[j].name])
  }

  lemma NothingElse(w: World, mounts: seq<Mount>, declared: map<string, Declared>)
    ensures OnlyDeclared(w, w, mounts, declared)
  {
  }

  lemma NoneDone(w: World, mounts: seq<Mount>, declared: map<string, Declared>)
    ensures DoneUpTo(w, mounts, declared, [], 0)
  {
  }

  lemma TrackOf(w: World, mounts: seq<Mount>, declared: map<string, Declared>, k: nat)
    requires AllOnTrack(w, mounts, declared) && k < |mounts|
    ensures mounts[k].name in declared && OnTrack(w, mounts[k], declared[mounts[k].name])
  {
    hide OnTrack;
  }

  lemma KindOf(mounts: seq<Mount>, declared: map<string, Declared>, k: nat)
    requires Distinct(mounts, declared) && k < |mounts|
    ensures mounts[k].kind in {"ext4", "xfs"}
  {
    assert mounts[k] in mounts;
  }

  lemma NextSupply(w: World, supplies: seq<Supply>, k: nat)
    requires k < |supplies| && Supplied(w, supplies[k..])
    ensures Fresh(w, supplies[k].uuid)
    ensures supplies[k].revealed.Filesystem? ==>
            Fresh(w, supplies[k].revealed.uuid) && supplies[k].revealed.uuid != supplies[k].uuid
  {
    hide Fresh;
    assert supplies[k..][0] == supplies[k];
  }

  /** The UUID is one of those that the run may use. */
  ghost predicate Among(supplies: seq<Supply>, uuid: string) {
    exists x <- supplies :: x.uuid == uuid || (x.revealed.Filesystem? && x.revealed.uuid == uuid)
  }

  /** No UUID but those of the supplies has been used. */
  ghost predicate StaysFresh(a: World, b: World, supplies: seq<Supply>) {
    forall u | Fresh(a, u) && !Among(supplies, u) :: Fresh(b, u)
  }

  lemma NothingTaken(w: World, supplies: seq<Supply>)
    ensures StaysFresh(w, w, supplies)
  {
  }

  lemma MoreTaken(start: World, a: World, b: World, supplies: seq<Supply>, k: nat)
    requires StaysFresh(start, a, supplies) && k < |supplies|
    requires forall u | u != supplies[k].uuid && (supplies[k].revealed.Filesystem? ==> u != supplies[k].revealed.uuid)
             && Fresh(a, u) ::
               Fresh(b, u)
    ensures StaysFresh(start, b, supplies)
  {
    hide Fresh;
    assert supplies[k] in supplies;
  }

  lemma NothingTakenByState(start: World, w: World, records: seq<Record>, supplies: seq<Supply>)
    requires StaysFresh(start, w, supplies)
    ensures StaysFresh(start, WithState(w, records), supplies)
  {
    FreshBySame(w, WithState(w, records));
  }

  function Concat(rounds: seq<seq<Supply>>): seq<Supply> {
    if rounds == [] then [] else rounds[0] + Concat(rounds[1..])
  }

  lemma FirstRound(rounds: seq<seq<Supply>>, r: nat)
    requires r < |rounds|
    ensures Concat(rounds[r..]) == rounds[r] + Concat(rounds[r + 1..])
    ensures rounds[0..] == rounds
  {
    assert rounds[r..][1..] == rounds[r + 1..];
  }

  lemma FirstSupplied(w: World, now: seq<Supply>, rest: seq<Supply>)
    requires Supplied(w, now + rest)
    ensures Supplied(w, now)
  {
    hide Fresh, Apart;
    assert forall k | 0 <= k < |now| :: (now + rest)[k] == now[k];
  }

  /** What is meant for later runs is not used by this one. */
  lemma LaterSupplied(a: World, b: World, now: seq<Supply>, rest: seq<Supply>)
    requires Supplied(a, now + rest) && StaysFresh(a, b, now)
    ensures Supplied(b, rest)
  {
    hide Fresh;
    var all := now + rest;
    forall k | 0 <= k < |rest|
      ensures rest[k] == all[|now| + k]
      ensures !Among(now, rest[k].uuid) && (rest[k].revealed.Filesystem? ==> !Among(now, rest[k].revealed.uuid))
    {
      forall i | 0 <= i < |now| ensures Apart(now[i], rest[k]) {
        assert now[i] == all[i] && rest[k] == all[|now| + k];
      }
    }
  }

  lemma OnlyDeclaredBoth(a: World, b: World, c: World, mounts: seq<Mount>, declared: map<string, Declared>)
    requires OnlyDeclared(a, b, mounts, declared) && OnlyDeclared(b, c, mounts, declared)
    ensures OnlyDeclared(a, c, mounts, declared)
  {
  }

  lemma OneMoreDone(
    w: World, mounts: seq<Mount>, declared: map<string, Declared>, records: seq<Record>, k: nat, r: Record)
    requires DoneUpTo(w, mounts, declared, records, k) && k < |mounts| && mounts[k].name in declared
    requires Done(w, mounts[k], declared[mounts[k].name]) && Describes(r, w, mounts[k], declared[mounts[k].name])
    ensures DoneUpTo(w, mounts, declared, records + [r], k + 1)
  {
    hide Done, Describes;
  }

  function WithState(w: World, records: seq<Record>): World {
    w.(state := Some(records))
  }

  /** What one `PrepareMount` does to the world. */
  ghost predicate Stepped(a: World, b: World, m: Mount, d: Declared) {
    if FindDisk(a, d).None? then b == a else Moved(a, b, FindDisk(a, d).value, m.path)
  }

  lemma StepPreserves(a: World, b: World, m: Mount, d: Declared)
    requires Stepped(a, b, m, d)
    ensures Preserves(a, b)
  {
    hide Preserves, Local, Sane;
    PreservesNothing(a);
  }

  lemma StepOnlyDeclared(
    start: World, a: World, b: World, mounts: seq<Mount>, declared: map<string, Declared>, m: Mount, d: Declared)
    requires OnlyDeclared(start, a, mounts, declared) && Stepped(a, b, m, d) && m.name in declared
             && declared[m.name] == d
    requires Preserves(start, a)
    ensures OnlyDeclared(start, b, mounts, declared)
  {
    Found(a, d);
    if FindDisk(a, d).Some? {
      var i := FindDisk(a, d).value;
      assert a.disks[i].serial == d.serial && start.disks[i].serial == d.serial;
      assert declared[m.name].serial == start.disks[i].serial;
    }
  }

  lemma RestSupplied(a: World, b: World, supplies: seq<Supply>, k: nat)
    requires k < |supplies| && Supplied(a, supplies[k..])
    requires forall u | u != supplies[k].uuid && Fresh(a, u)
                        && (supplies[k].revealed.Filesystem? ==> u != supplies[k].revealed.uuid) ::
               Fresh(b, u)
    ensures Supplied(b, supplies[k + 1..])
  {
    hide Fresh;
    var rest, now := supplies[k + 1..], supplies[k..];
    forall j | 0 <= j < |rest|
      ensures rest[j] == now[j + 1] && Apart(now[0], rest[j])
    {
    }
    assert now[0] == supplies[k];
  }

  lemma OtherDisk(a: World, m: Mount, d: Declared, e: Declared)
    requires FindDisk(a, d).Some? && d.serial != e.serial
    ensures FindDisk(a, e) != FindDisk(a, d)
  {
    Found(a, d);
    Found(a, e);
  }

  lemma StepKeepsTrack(a: World, b: World, m: Mount, d: Declared, n: Mount, e: Declared)
    requires Stepped(a, b, m, d) && MountedHere(a, b, m, d) && OnTrack(a, n, e) && n.path != m.path
             && e.serial != d.serial
    ensures OnTrack(b, n, e)
  {
    hide OnTrack, Preserves, Local, Sane;
    if FindDisk(a, d).Some? {
      OtherDisk(a, m, d, e);
      TrackStays(a, b, FindDisk(a, d).value, m.path, n, e);
    }
  }

  lemma StepKeepsTracks(a: World, b: World, mounts: seq<Mount>, declared: map<string, Declared>, k: nat)
    requires AllOnTrack(a, mounts, declared) && Distinct(mounts, declared) && k < |mounts|
    requires mounts[k].name in declared && Stepped(a, b, mounts[k], declared[mounts[k].name])
    requires OnTrack(b, mounts[k], declared[mounts[k].name]) && MountedHere(a, b, mounts[k], declared[mounts[k].name])
    ensures AllOnTrack(b, mounts, declared)
  {
    hide OnTrack, Stepped, MountedHere;
    forall j | 0 <= j < |mounts|
      ensures mounts[j].name in declared && OnTrack(b, mounts[j], declared[mounts[j].name])
    {
      if j != k {
        Different(mounts, declared, j, k);
        StepKeepsTrack(a, b, mounts[k], declared[mounts[k].name], mounts[j], declared[mounts[j].name]);
      }
    }
  }

  lemma Different(mounts: seq<Mount>, declared: map<string, Declared>, j: nat, k: nat)
    requires Distinct(mounts, declared) && j < |mounts| && k < |mounts| && j != k
    requires mounts[j].name in declared && mounts[k].name in declared
    ensures mounts[j].path != mounts[k].path && declared[mounts[j].name].serial != declared[mounts[k].name].serial
  {
    if j < k {} else { assert mounts[k].name != mounts[j].name; }
  }

  lemma DescribesStays(a: World, b: World, r: Record, m: Mount, d: Declared)
    requires Describes(r, a, m, d) && Preserves(a, b)
    ensures Describes(r, b, m, d)
  {
    SameDisk(a, b, d);
    assert a.Content(r.source).Filesystem? && b.Content(r.source) == a.Content(r.source);
  }

  lemma StepKeepsDone(
    a: World, b: World, mounts: seq<Mount>, declared: map<string, Declared>, records: seq<Record>, k: nat)
    requires DoneUpTo(a, mounts, declared, records, k) && Distinct(mounts, declared) && k < |mounts| && Sane(b)
    requires mounts[k].name in declared && Stepped(a, b, mounts[k], declared[mounts[k].name])
    ensures DoneUpTo(b, mounts, declared, records, k)
  {
    hide Done, Describes, Preserves, Local, Distinct, Listed, Unique;
    StepPreserves(a, b, mounts[k], declared[mounts[k].name]);
    forall j | 0 <= j < k
      ensures Done(b, mounts[j], declared[mounts[j].name])
              && Describes(records[j], b, mounts[j], declared[mounts[j].name])
    {
      Different(mounts, declared, j, k);
      DescribesStays(a, b, records[j], mounts[j], declared[mounts[j].name]);
      var d, e := declared[mounts[k].name], declared[mounts[j].name];
      if FindDisk(a, d).Some? {
        OtherDisk(a, mounts[k], d, e);
        DoneStays(a, b, FindDisk(a, d).value, mounts[k].path, mounts[j], e);
      }
    }
  }

  lemma StateFile(
    start: World, w: World, mounts: seq<Mount>, declared: map<string, Declared>, records: seq<Record>, tracked: bool)
    requires Preserves(start, w) && Sane(w) && OnlyDeclared(start, w, mounts, declared)
             && DoneUpTo(w, mounts, declared, records, |mounts|)
    requires tracked ==> AllOnTrack(w, mounts, declared)
    ensures var b := WithState(w, records);
            Preserves(start, b) && Sane(b) && OnlyDeclared(start, b, mounts, declared)
              && DoneUpTo(b, mounts, declared, records, |mounts|)
            && (tracked ==> AllOnTrack(b, mounts, declared))
  {
    hide Preserves, Sane, OnlyDeclared, DoneUpTo, AllOnTrack;
    var b := WithState(w, records);
    OtherwisePreserves(w, b);
    PreservesBoth(start, w, b);
    StateIsApart(w, b);
    StateKeepsDone(w, b, mounts, declared, records);
    if tracked { StateKeepsTracks(w, b, mounts, declared); }
    StateOnlyDeclared(start, w, b, mounts, declared);
  }

  lemma StateIsApart(a: World, b: World)
    requires b == a.(state := b.state) && Sane(a)
    ensures Sane(b)
  {
    assert forall d :: b.Content(d) == a.Content(d) && (b.InUse(d) <==> a.InUse(d));
  }

  lemma StateOnlyDeclared(start: World, a: World, b: World, mounts: seq<Mount>, declared: map<string, Declared>)
    requires b == a.(state := b.state) && OnlyDeclared(start, a, mounts, declared)
    ensures OnlyDeclared(start, b, mounts, declared)
  {
    assert forall d :: b.Content(d) == a.Content(d);
  }

  lemma StateKeepsDone(a: World, b: World, mounts: seq<Mount>, declared: map<string, Declared>, records: seq<Record>)
    requires b == a.(state := b.state) && DoneUpTo(a, mounts, declared, records, |mounts|)
    ensures DoneUpTo(b, mounts, declared, records, |mounts|)
  {
    forall j | 0 <= j < |mounts|
      ensures Done(b, mounts[j], declared[mounts[j].name])
              && Describes(records[j], b, mounts[j], declared[mounts[j].name])
    {
      OneStateKeepsDone(a, b, mounts[j], declared[mounts[j].name], records[j]);
    }
  }

  lemma OneStateKeepsDone(a: World, b: World, m: Mount, d: Declared, r: Record)
    requires b == a.(state := b.state) && Done(a, m, d) && Describes(r, a, m, d)
    ensures Done(b, m, d) && Describes(r, b, m, d)
  {
    assert FindDisk(b, d) == FindDisk(a, d);
    assert forall x :: UuidOf(b, x) == UuidOf(a, x);
  }

  lemma StateKeepsTracks(a: World, b: World, mounts: seq<Mount>, declared: map<string, Declared>)
    requires b == a.(state := b.state) && AllOnTrack(a, mounts, declared)
    ensures AllOnTrack(b, mounts, declared)
  {
    hide OnTrack;
    forall k | 0 <= k < |mounts| ensures OnTrack(b, mounts[k], declared[mounts[k].name]) {
      OneStateKeepsTrack(a, b, mounts[k], declared[mounts[k].name]);
    }
  }

  lemma OneStateKeepsTrack(a: World, b: World, m: Mount, d: Declared)
    requires b == a.(state := b.state) && OnTrack(a, m, d)
    ensures OnTrack(b, m, d)
  {
    assert FindDisk(b, d) == FindDisk(a, d);
    assert forall x :: b.Content(x) == a.Content(x) && (b.InUse(x) <==> a.InUse(x));
  }

  lemma AllDone(w: World, mounts: seq<Mount>, declared: map<string, Declared>, records: seq<Record>)
    requires DoneUpTo(w, mounts, declared, records, |mounts|)
    ensures |records| == |mounts|
    ensures forall k | 0 <= k < |mounts| ::
              mounts[k].name in declared && Done(w, mounts[k], declared[mounts[k].name])
              && Describes(records[k], w, mounts[k], declared[mounts[k].name])
  {
    hide Done, Describes;
  }

  lemma NoneFit(w: World, mounts: seq<Mount>, declared: map<string, Declared>, supplies: seq<Supply>)
    requires |supplies| == |mounts|
    ensures FitSoFar(w, w, mounts, declared, supplies, 0)
    ensures mounts == [] ==> AllSuit(w, mounts, declared, supplies)
  {
    hide Suits;
  }

  lemma NextFits(
    start: World, w: World, mounts: seq<Mount>, declared: map<string, Declared>, supplies: seq<Supply>, k: nat)
    requires |supplies| == |mounts| && k < |mounts| && mounts[k].name in declared
    requires AllSuit(start, mounts, declared, supplies) && FitSoFar(start, w, mounts, declared, supplies, k)
    ensures Fits(w, mounts[k], declared[mounts[k].name], supplies[k].revealed)
  {
    hide Fits, PathFits;
    assert Suits(w, mounts[k], declared[mounts[k].name], supplies[k].revealed);
  }

  lemma AllHaveFit(
    start: World, w: World, mounts: seq<Mount>, declared: map<string, Declared>, supplies: seq<Supply>)
    requires |supplies| == |mounts| && FitSoFar(start, w, mounts, declared, supplies, |mounts|)
    ensures AllSuit(start, mounts, declared, supplies)
  {
    hide Suits;
  }

  /** Preparing one mount leaves the disk of another alone. */
  lemma StepKeepsFit(a: World, b: World, m: Mount, d: Declared, n: Mount, e: Declared, revealed: Content)
    requires Stepped(a, b, m, d) && e.serial != d.serial && n.path != m.path
    ensures Suits(b, n, e, revealed) == Suits(a, n, e, revealed)
  {
    hide Sane, Adoptable;
    if FindDisk(a, d).Some? {
      OtherDisk(a, m, d, e);
      SameDisk(a, b, e);
    }
  }

  lemma OneMoreFits(
    start: World, a: World, b: World, mounts: seq<Mount>, declared: map<string, Declared>, supplies: seq<Supply>,
    k: nat)
    requires |supplies| == |mounts| && k < |mounts| && mounts[k].name in declared && Distinct(mounts, declared)
    requires FitSoFar(start, a, mounts, declared, supplies, k)
    requires Stepped(a, b, mounts[k], declared[mounts[k].name])
    requires Suits(a, mounts[k], declared[mounts[k].name], supplies[k].revealed)
    ensures FitSoFar(start, b, mounts, declared, supplies, k + 1)
  {
    hide Suits, Stepped, Distinct;
    forall j | k < j < |mounts| && mounts[j].name in declared
      ensures Suits(b, mounts[j], declared[mounts[j].name], supplies[j].revealed)
              == Suits(a, mounts[j], declared[mounts[j].name], supplies[j].revealed)
    {
      Different(mounts, declared, j, k);
      StepKeepsFit(a, b, mounts[k], declared[mounts[k].name], mounts[j], declared[mounts[j].name],
                   supplies[j].revealed);
    }
  }

  lemma SuitsWhen(w: World, m: Mount, d: Declared, revealed: Content)
    ensures Suits(w, m, d, revealed) <==> Fits(w, m, d, revealed) && PathFits(w, m, d)
    ensures PathFits(w, m, d) <==>
            && !w.Place(m.path).Symlinked?
            && !(m.path !in w.mounts && (w.Place(m.path).NotDirectory? || w.Place(m.path) == Folder(false)))
            && !(m.path in w.mounts && FindDisk(w, d).Some? && FindDisk(w, d).value < |w.disks|
                 && w.disks[FindDisk(w, d).value].parts == [])
  {
  }

  lemma TracksSuit(w: World, mounts: seq<Mount>, declared: map<string, Declared>, supplies: seq<Supply>)
    requires |supplies| == |mounts| && AllOnTrack(w, mounts, declared) && AllFit(w, mounts, declared, supplies)
    ensures AllSuit(w, mounts, declared, supplies)
  {
    forall k | 0 <= k < |mounts| && mounts[k].name in declared
      ensures Suits(w, mounts[k], declared[mounts[k].name], supplies[k].revealed)
    {
      assert OnTrack(w, mounts[k], declared[mounts[k].name]);
    }
  }

  /** A disk once partitioned stays so; what fitted before fits later. */
  lemma FitLater(a: World, b: World, mounts: seq<Mount>, declared: map<string, Declared>, supplies: seq<Supply>)
    requires |supplies| == |mounts| && Preserves(a, b) && AllFit(a, mounts, declared, supplies)
    ensures AllFit(b, mounts, declared, supplies)
  {
    forall k | 0 <= k < |mounts| && mounts[k].name in declared
      ensures Fits(b, mounts[k], declared[mounts[k].name], supplies[k].revealed)
    {
      SameDisk(a, b, declared[mounts[k].name]);
      assert Fits(a, mounts[k], declared[mounts[k].name], supplies[k].revealed);
    }
  }

  /** A partition that shows something of no use to its mount keeps it from ever being completed. */
  lemma UnfitIsFinal(w: World, i: nat, revealed: Content, later: World, m: Mount, d: Declared)
    requires FindDisk(w, d) == Some(i) && i < |w.disks| && w.Untouched(i) && Sane(w)
    requires (revealed.Filesystem? ==> Fresh(w, revealed.uuid)) && Preserves(Partitioned(w, i, revealed), later)
    requires !Adoptable(revealed, m.kind)
    ensures !Done(later, m, d)
  {
    var after := Partitioned(w, i, revealed);
    PartitionIsLocal(w, i, revealed, m.path);
    SameDisk(w, after, d);
    SameDisk(after, later, d);
    assert after.Content(Piece(i, 0)) == revealed && later.Content(Piece(i, 0)) == revealed;
  }

  /** A blank declared disk and an empty or missing mount path are where a run starts. */
  lemma BlankIsOnTrack(w: World, m: Mount, d: Declared)
    requires FindDisk(w, d).Some? && FindDisk(w, d).value < |w.disks| && w.Untouched(FindDisk(w, d).value)
    requires m.path !in w.mounts && (w.Place(m.path).Missing? || w.Place(m.path) == Folder(true))
    ensures OnTrack(w, m, d) && !Done(w, m, d)
  {
  }
}
