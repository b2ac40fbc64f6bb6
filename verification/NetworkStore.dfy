/**
 Persistent network configuration of a host: files and NetworkManager
 properties, the steps that persist a static configuration for each backend,
 the snapshot taken before, and the steps that restore it.
 */
module NetworkStore {
  import opened Wrappers
  import opened PyText
  import opened Ifupdown

  /**
   The paths that matter. `InDir` is any other visible name in
   /etc/network/interfaces.d, and `BackupOf` appends `.infra-tools.bak`.
   */
  datatype Path = Main | Managed | Networkd | CloudInit | InDir(name: string) | BackupOf(path: Path)
    | Other(name: string)
  {
    /** Listed by the glob over /etc/network/interfaces.d. */
    predicate InConfigDir() {
      Managed? || InDir? || (BackupOf? && path.InConfigDir())
    }

    /** Read for stanzas to remove. */
    predicate HoldsStanzas() { Main? || InDir? }
  }

  datatype Node = File(content: string, mode: nat) | Link(target: Path) | Directory

  type Files = map<Path, Node>

  /** The NetworkManager properties a static configuration can touch. */
  datatype Property =
    | Ip4Method | Ip4Addresses | Ip4Gateway | Ip4NeverDefault | Ip4Dns | Ip4IgnoreAutoDns
    | Ip6Method | Ip6Addresses | Ip6Gateway | Ip6NeverDefault | Ip6Dns | Ip6IgnoreAutoDns
    | OtherProperty(name: string)

  const ROLLBACK_PROPERTIES: set<Property> :=
    {Ip4Method, Ip4Addresses, Ip4Gateway, Ip4NeverDefault, Ip4Dns, Ip4IgnoreAutoDns,
     Ip6Method, Ip6Addresses, Ip6Gateway, Ip6NeverDefault, Ip6Dns, Ip6IgnoreAutoDns}

  /** Configuration files, and for each connection its property values. */
  datatype Store = Store(files: Files, connections: map<string, map<Property, string>>)

  /** `os.path.isfile`, followed through one symbolic link. */
  function Followed(files: Files, p: Path): Option<Node> {
    if p !in files then None
    else match files[p]
      case File(_, _) => Some(files[p])
      case Link(t) => if t in files && files[t].File? then Some(files[t]) else None
      case Directory => None
  }

  predicate Exists(files: Files, p: Path) {
    p in files && (files[p].Link? ==> files[p].target in files && !files[files[p].target].Link?)
  }

  /** Reading in text mode turns every line break into `\n`. */
  function Universal(s: string): string {
    if s == "" then ""
    else if s[0] == '\r' then ['\n'] + Universal(if |s| > 1 && s[1] == '\n' then s[2..] else s[1..])
    else [s[0]] + Universal(s[1..])
  }

  lemma {:induction false} UniversalExact(s: string)
    ensures Universal(s) == s <==> '\r' !in s
    ensures '\r' !in Universal(s)
    decreases |s|
  {
    if s != "" {
      if s[0] == '\r' {
        UniversalExact(if |s| > 1 && s[1] == '\n' then s[2..] else s[1..]);
      } else {
        UniversalExact(s[1..]);
        assert s == [s[0]] + s[1..];
      }
    }
  }

  lemma UniversalTakes(s: string)
    requires s != ""
    ensures var k := if s[0] == '\r' && |s| > 1 && s[1] == '\n' then 2 else 1;
            Universal(s) == [if s[0] == '\r' then '\n' else s[0]] + Universal(s[k..])
  {
  }

  lemma UniversalOnes()
    ensures Universal("") == "" && Universal("\r\n") == Universal("\r") == "\n"
    ensures forall c | c != '\r' :: Universal([c]) == [c]
  {
    assert "\r\n"[2..] == "" && "\r"[1..] == "";
    forall c | c != '\r' ensures Universal([c]) == [c] { assert [c][1..] == ""; }
  }

  /** Each of the three line breaks becomes one `\n`, and no other character changes. */
  lemma {:induction false} UniversalConcat(a: string, b: string)
    requires !(a != "" && a[|a| - 1] == '\r' && b != "" && b[0] == '\n')
    ensures Universal(a + b) == Universal(a) + Universal(b)
    ensures Universal("\r\n") == Universal("\r") == "\n" && forall c | c != '\r' :: Universal([c]) == [c]
    decreases |a|
  {
    hide Universal;
    UniversalOnes();
    if a == "" {
      assert a + b == b;
    } else {
      var k := if a[0] == '\r' && |a| > 1 && a[1] == '\n' then 2 else 1;
      assert (a + b)[k..] == a[k..] + b;
      assert a[0] == '\r' && k == 1 ==> |a + b| == 1 || (a + b)[1] != '\n';
      UniversalConcat(a[k..], b);
      UniversalTakes(a);
      UniversalTakes(a + b);
    }
  }

  // --------------------------------------------------------------------- steps

  /** One command or one file operation. */
  datatype Step =
    | Modify(connection: string, changes: map<Property, string>)
    | Write(path: Path, content: string, mode: nat)
    | Unlink(path: Path)
    | Symlink(path: Path, target: Path)
    | BackupMain
    | WriteMain
    | BackupStanzas(path: Path)
    | WriteStanzas(path: Path)

  /** The main file's text with an include appended, when it lacks one. */
  function NewMain(files: Files): Option<string> {
    var content := match Followed(files, Main) case Some(f) => Universal(f.content) case None => DEFAULT_MAIN;
    if (Main in files && files[Main].Directory?) || HasInclude(content) then None else Some(WithInclude(content))
  }

  /** The file's text without the interface's stanzas, when it holds any. */
  function NewStanzas(files: Files, p: Path, interface: string): Option<string> {
    match Followed(files, p)
    case None => None
    case Some(f) =>
      var original := Universal(f.content);
      var updated := StripStanzas(original, interface);
      if updated == original then None else Some(updated)
  }

  /** The backup half of `_write_with_backup`: `copy2` writes through a dangling link. */
  function CopyBackup(files: Files, p: Path): Files {
    var bak := BackupOf(p);
    if Followed(files, p).None? || Exists(files, bak) then files
    else if bak in files && files[bak].Link? then files[files[bak].target := Followed(files, p).value]
    else files[bak := Followed(files, p).value]
  }

  /** The write half: the mode of the file that was read, or 0644. */
  function Rewrite(files: Files, p: Path, content: string): Files {
    files[p := File(content, match Followed(files, p) case Some(f) => f.mode case None => 0x1A4)]
  }

  function FileEffect(files: Files, step: Step, interface: string): Files {
    match step
    case Modify(_, _) => files
    case Write(p, content, mode) => files[p := File(content, mode)]
    case Unlink(p) => files - {p}
    case Symlink(p, t) => files[p := Link(t)]
    case BackupMain => if NewMain(files).Some? then CopyBackup(files, Main) else files
    case WriteMain => if NewMain(files).Some? then Rewrite(files, Main, NewMain(files).value) else files
    case BackupStanzas(p) => if NewStanzas(files, p, interface).Some? then CopyBackup(files, p) else files
    case WriteStanzas(p) =>
      if NewStanzas(files, p, interface).Some? then Rewrite(files, p, NewStanzas(files, p, interface).value) else files
  }

  function Effect(s: Store, step: Step, interface: string): Store {
    match step
    case Modify(connection, changes) =>
      if connection in s.connections
      then s.(connections := s.connections[connection := s.connections[connection] + changes])
      else s
    case _ => s.(files := FileEffect(s.files, step, interface))
  }

  /** The state after the first `k` steps of a program. */
  function Exec(s: Store, program: seq<Step>, k: nat, interface: string): Store
    requires k <= |program|
  {
    if k == 0 then s else Effect(Exec(s, program, k - 1, interface), program[k - 1], interface)
  }

  function ExecAll(s: Store, program: seq<Step>, interface: string): Store {
    Exec(s, program, |program|, interface)
  }

  // ----------------------------------------------------------------- snapshots

  datatype Snapshot = Absent(path: Path) | Content(path: Path, content: string, mode: nat)
    | Target(path: Path, target: Path)

  datatype Rollback =
    | Properties(connection: string, values: map<Property, seq<string>>, file: Snapshot)
    | Snapshots(files: seq<Snapshot>)

  function Snap(files: Files, p: Path): Snapshot
    requires p in files ==> !files[p].Directory?
  {
    if p !in files then Absent(p)
    else match files[p]
      case File(content, mode) => Content(p, Universal(content), mode)
      case Link(t) => Target(p, t)
  }

  function RestoreSteps(snap: Snapshot): seq<Step> {
    match snap
    case Absent(p) => [Unlink(p)]
    case Content(p, content, mode) => [Write(p, content, mode)]
    case Target(p, t) => [Unlink(p), Symlink(p, t)]
  }

  function RestoreFiles(snaps: seq<Snapshot>): seq<Step> {
    if snaps == [] then [] else RestoreSteps(snaps[0]) + RestoreFiles(snaps[1..])
  }

  function JoinComma(values: seq<string>): string {
    if values == [] then "" else if |values| == 1 then values[0] else values[0] + "," + JoinComma(values[1..])
  }

  function RestoreProgram(r: Rollback): seq<Step> {
    match r
    case Properties(connection, values, file) =>
      [Modify(connection, map p <- values :: JoinComma(values[p]))] + RestoreSteps(file)
    case Snapshots(files) => RestoreFiles(files)
  }

  // -------------------------------------------------------------------- persist

  datatype Backend = NetworkManager | SystemdNetworkd | IfupdownBackend

  /** An address in CIDR notation, with its address and network parts. */
  datatype Address = Address(cidr: string, ip: string, network: string)

  datatype Settings = Settings(
    static4: Option<Address>, static6: Option<Address>,
    gateway4: Option<string>, gateway6: Option<string>, dns: seq<string>)

  function Text(value: Option<string>): string {
    if value.Some? then value.value else ""
  }

  /** The servers with, or without, a colon in their address. */
  function DnsServers(dns: seq<string>, colon: bool): seq<string> {
    if dns == [] then []
    else (if (':' in dns[0]) == colon then [dns[0]] else []) + DnsServers(dns[1..], colon)
  }

  function Changes4(c: Settings): map<Property, string>
    requires c.static4.Some?
  {
    map[Ip4Method := "manual", Ip4Addresses := c.static4.value.cidr, Ip4Gateway := Text(c.gateway4),
        Ip4NeverDefault := if c.gateway4.Some? then "no" else "yes"]
  }

  function Changes6(c: Settings): map<Property, string>
    requires c.static6.Some?
  {
    map[Ip6Method := "manual", Ip6Addresses := c.static6.value.cidr, Ip6Gateway := Text(c.gateway6),
        Ip6NeverDefault := if c.gateway6.Some? then "no" else "yes"]
  }

  function ChangesDns(c: Settings): map<Property, string> {
    var four, six := DnsServers(c.dns, false), DnsServers(c.dns, true);
    (if four == [] then map[] else map[Ip4Dns := JoinComma(four), Ip4IgnoreAutoDns := "yes"])
    + (if six == [] then map[] else map[Ip6Dns := JoinComma(six), Ip6IgnoreAutoDns := "yes"])
  }

  /** One `nmcli connection modify` for each family and one for the name servers. */
  function NetworkManagerSteps(c: Settings, connection: string): seq<Step> {
    (if c.static4.Some? then [Modify(connection, Changes4(c))] else [])
    + (if c.static6.Some? then [Modify(connection, Changes6(c))] else [])
    + (if ChangesDns(c) != map[] then [Modify(connection, ChangesDns(c))] else [])
  }

  /** The lines with a line break behind each. */
  function Lines(lines: seq<string>): string {
    if lines == [] then "" else lines[0] + "\n" + Lines(lines[1..])
  }

  function Prefixed(prefix: string, values: seq<string>): seq<string> {
    seq(|values|, i requires 0 <= i < |values| => prefix + values[i])
  }

  function ListOf(value: Option<string>): seq<string> {
    if value.Some? then [value.value] else []
  }

  function Cidr(address: Option<Address>): seq<string> {
    if address.Some? then [address.value.cidr] else []
  }

  const NOTICE: string := ("# Managed by " + "infra_tools. ") + ("Changes will " + "be overwritten.")

  function RenderNetworkd(c: Settings, interface: string): string {
    Lines([NOTICE, "[Match]", "Name=" + interface, "", "[Network]",
           if c.static4.None? then "DHCP=ipv4" else "DHCP=no",
           "IPv6AcceptRA=" + if c.static6.Some? then "no" else "yes"]
          + Prefixed("Address=", Cidr(c.static4) + Cidr(c.static6))
          + Prefixed("Gateway=", ListOf(c.gateway4) + ListOf(c.gateway6))
          + Prefixed("DNS=", c.dns))
  }

  function RenderIfupdown(c: Settings, interface: string): string {
    Lines([NOTICE, "auto " + interface]
          + (if c.static4.None? then ["iface " + interface + " inet dhcp"]
             else ["iface " + interface + " inet static", "    address " + c.static4.value.cidr]
                  + Prefixed("    gateway ", ListOf(c.gateway4)))
          + (if c.dns == [] then [] else ["    dns-nameservers " + Spaced(c.dns)])
          + (if c.static6.None? then ["", "iface " + interface + " inet6 auto"]
             else ["", "iface " + interface + " inet6 static", "    address " + c.static6.value.cidr]
                  + Prefixed("    gateway ", ListOf(c.gateway6))))
  }

  const CLOUD_INIT_CONTENT: string := ("# Managed by infra_tools" + "\n") + ("network: {config: disabled}" + "\n")

  function StanzaSteps(paths: seq<Path>): seq<Step> {
    if paths == [] then [] else [BackupStanzas(paths[0]), WriteStanzas(paths[0])] + StanzaSteps(paths[1..])
  }

  /** The main file, then the globbed files of the directory in their listing order. */
  function StanzaPaths(snaps: seq<Snapshot>): seq<Path> {
    if snaps == [] then [Main]
    else
      var before := StanzaPaths(snaps[..|snaps| - 1]);
      var p := snaps[|snaps| - 1].path;
      if p.InDir? then before + [p] else before
  }

  function BackendSteps(backend: Backend, c: Settings, interface: string, r: Rollback): seq<Step> {
    match backend
    case NetworkManager => if r.Properties? then NetworkManagerSteps(c, r.connection) else []
    case SystemdNetworkd => [Write(Networkd, RenderNetworkd(c, interface), 0x1A4)]
    case IfupdownBackend =>
      [BackupMain, WriteMain, Write(Managed, RenderIfupdown(c, interface), 0x1A4)]
      + (if r.Snapshots? then StanzaSteps(StanzaPaths(r.files)) else [])
  }

  /** `_persist_static_network`; `cloudInit` says whether its configuration directory exists. */
  function PersistProgram(backend: Backend, c: Settings, interface: string, r: Rollback, cloudInit: bool): seq<Step> {
    BackendSteps(backend, c, interface, r) + (if cloudInit then [Write(CloudInit, CLOUD_INIT_CONTENT, 0x1A4)] else [])
  }

  // -------------------------------------------------------------------- capture

  /** The paths `_capture_persistence_rollback` snapshots. */
  function CapturedPaths(backend: Backend, files: Files): set<Path> {
    match backend
    case NetworkManager => {CloudInit}
    case SystemdNetworkd => {Networkd, CloudInit}
    case IfupdownBackend =>
      {Main, Managed, CloudInit, BackupOf(Main)}
      + (set p <- files | p.InConfigDir() && !files[p].Directory?)
      + (set p <- files | p.InConfigDir() && !p.BackupOf? :: BackupOf(p))
  }

  /**
   `listing` is the sorted list of the captured paths. Of the order only this is
   used: a path comes before its backup, whose name it is a prefix of.
   */
  ghost predicate IsListing(listing: seq<Path>, paths: set<Path>) {
    && (forall p :: p in listing <==> p in paths)
    && (forall i, j | 0 <= i < j < |listing| :: listing[i] != listing[j] && listing[i] != BackupOf(listing[j]))
  }

  /** Capturing fails on a directory in the way or a property that cannot be read. */
  ghost predicate Capturable(backend: Backend, s: Store, connection: string) {
    && (forall p <- CapturedPaths(backend, s.files) | p in s.files :: !s.files[p].Directory?)
    && (backend.NetworkManager? ==>
        connection in s.connections && ROLLBACK_PROPERTIES <= s.connections[connection].Keys)
  }

  function Snaps(files: Files, listing: seq<Path>): seq<Snapshot>
    requires forall p <- listing | p in files :: !files[p].Directory?
  {
    seq(|listing|, i requires 0 <= i < |listing| => assert listing[i] in listing; Snap(files, listing[i]))
  }

  function Capture(backend: Backend, s: Store, connection: string, listing: seq<Path>): Rollback
    requires forall p <- listing | p in s.files :: !s.files[p].Directory?
    requires backend.NetworkManager? ==>
             connection in s.connections && ROLLBACK_PROPERTIES <= s.connections[connection].Keys && listing != []
  {
    if backend.NetworkManager?
    then Properties(connection, map p <- ROLLBACK_PROPERTIES ::
                    [s.connections[connection][p]], Snaps(s.files, listing)[0])
    else Snapshots(Snaps(s.files, listing))
  }
}
