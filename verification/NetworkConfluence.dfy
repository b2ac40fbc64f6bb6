/**
 Persisting is confluent: run again from any state that interrupted runs and
 interrupted restores leave, it ends where one uninterrupted run from the
 captured base ends.
 */
module NetworkConfluence {
  import opened Wrappers
  import opened PyText
  import opened Ifupdown
  import opened NetworkStore
  import opened NetworkRestore

  // ---------------------------------------------------------------- text facts

  /** Text without carriage returns. */
  predicate Unix(s: string) { '\r' !in s }

  lemma {:induction false} JoinedChars(lines: seq<string>, c: char)
    ensures c in Join(lines) <==> exists l <- lines :: c in l
  {
    if lines != [] {
      JoinedChars(lines[1..], c);
      assert lines[0] in lines;
    }
  }

  lemma StrippedIsUnix(content: string, interface: string)
    requires Unix(content)
    ensures Unix(StripStanzas(content, interface))
  {
    var lines := SplitLines(content);
    assert lines[..|lines|] == lines;
    JoinedChars(lines, '\r');
    JoinedChars(Kept(lines, interface, |lines|), '\r');
  }

  lemma {:induction false} RStripIsUnix(s: string)
    requires Unix(s)
    ensures Unix(RStrip(s))
  {
    if s != "" && IsSpace(s[|s| - 1]) {
      assert forall c <- s[..|s| - 1] :: c in s;
      RStripIsUnix(s[..|s| - 1]);
    }
  }

  lemma ConcatIsUnix(a: string, b: string)
    requires Unix(a) && Unix(b)
    ensures Unix(a + b)
  {
  }

  lemma SourceLineIsUnix()
    ensures Unix(SourceLine())
  {
    assert Spaced(["source", INCLUDE_PATTERN]) == "source" + ([' '] + INCLUDE_PATTERN);
    assert Unix("source") && Unix([' ']) && Unix(INCLUDE_PATTERN);
    ConcatIsUnix([' '], INCLUDE_PATTERN);
    ConcatIsUnix("source", [' '] + INCLUDE_PATTERN);
  }

  lemma IncludedIsUnix(content: string)
    requires Unix(content)
    ensures Unix(WithInclude(content))
  {
    RStripIsUnix(content);
    SourceLineIsUnix();
    ConcatIsUnix(RStrip(content), "\n\n");
    ConcatIsUnix(RStrip(content) + "\n\n", SourceLine());
  }

  // ---------------------------------------------------- one file and its backup

  function At(files: Files, p: Path): Option<Node> {
    if p in files then Some(files[p]) else None
  }

  /** The regular file a path with node `x` reads; links lead to files of `base`. */
  function Resolve(base: Files, x: Option<Node>): Option<Node> {
    match x
    case Some(File(_, _)) => x
    case Some(Link(t)) => if t in base && base[t].File? then Some(base[t]) else None
    case _ => None
  }

  function ReadText(f: Option<Node>): string {
    match f case Some(File(content, _)) => Universal(content) case _ => DEFAULT_MAIN
  }

  function ModeOf(f: Option<Node>): nat {
    match f case Some(File(_, mode)) => mode case _ => 0x1A4
  }

  predicate NeedsInclude(base: Files, x: Option<Node>) {
    x != Some(Directory) && !HasInclude(ReadText(Resolve(base, x)))
  }

  predicate NeedsStrip(base: Files, x: Option<Node>, interface: string) {
    var f := Resolve(base, x);
    f.Some? && StripStanzas(ReadText(f), interface) != ReadText(f)
  }

  function Included(base: Files, x: Option<Node>): Option<Node> {
    if NeedsInclude(base, x)
    then Some(File(WithInclude(ReadText(Resolve(base, x))), ModeOf(Resolve(base, x))))
    else x
  }

  function Stripped(base: Files, x: Option<Node>, interface: string): Option<Node> {
    if NeedsStrip(base, x, interface)
    then Some(File(StripStanzas(ReadText(Resolve(base, x)), interface), ModeOf(Resolve(base, x))))
    else x
  }

  /** The file that one uninterrupted run makes of `x`. */
  function Rewritten(base: Files, x: Option<Node>, main: bool, interface: string): Option<Node> {
    Stripped(base, if main then Included(base, x) else x, interface)
  }

  /** The backup that one uninterrupted run makes when there is none. */
  function Created(base: Files, x: Option<Node>, main: bool, interface: string): Option<Node> {
    if main && NeedsInclude(base, x) then
      if Resolve(base, x).Some? then Resolve(base, x)
      else if NeedsStrip(base, Included(base, x), interface) then Included(base, x)
      else None
    else if NeedsStrip(base, x, interface) then Resolve(base, x)
    else None
  }

  function BackedUp(base: Files, x: Option<Node>, y: Option<Node>, main: bool, interface: string): Option<Node> {
    if y.Some? then y else Created(base, x, main, interface)
  }

  /**
   `(x, y)` is a file and its backup on the way from `(o, b)`: finishing from it, or
   from it with the file put back, gives what one run from `(o, b)` gives.
   */
  predicate OnTheWay(
    base: Files, o: Option<Node>, b: Option<Node>, x: Option<Node>, y: Option<Node>, main: bool, interface: string)
  {
    && (x == o || x.None? || x.value.File?)
    && Rewritten(base, x, main, interface) == Rewritten(base, o, main, interface)
    && BackedUp(base, x, y, main, interface) == BackedUp(base, o, b, main, interface)
    && BackedUp(base, o, y, main, interface) == BackedUp(base, o, b, main, interface)
  }

  lemma IncludedSettles(base: Files, x: Option<Node>, interface: string)
    ensures var n := Included(base, x);
            !NeedsInclude(base, n) && Included(base, n) == n && (NeedsInclude(base, x) ==> Resolve(base, n) == n)
    ensures Rewritten(base, Included(base, x), true, interface) == Rewritten(base, x, true, interface)
  {
    if NeedsInclude(base, x) {
      var text := ReadText(Resolve(base, x));
      TextIsUnix(Resolve(base, x));
      AppendedInclude(text, interface);
      IncludedIsUnix(text);
      UniversalExact(WithInclude(text));
    }
  }

  lemma TextIsUnix(f: Option<Node>)
    ensures Unix(ReadText(f))
  {
    match f {
      case Some(File(content, _)) => UniversalExact(content);
      case _ => DefaultIsUnix();
    }
  }

  lemma DefaultIsUnix()
    ensures Unix(DEFAULT_MAIN)
  {
  }

  lemma StrippedSettles(base: Files, x: Option<Node>, interface: string)
    ensures var n := Stripped(base, x, interface);
            !NeedsStrip(base, n, interface) && Stripped(base, n, interface) == n
            && (NeedsStrip(base, x, interface) ==> Resolve(base, n) == n)
  {
    if NeedsStrip(base, x, interface) {
      var text := ReadText(Resolve(base, x));
      TextIsUnix(Resolve(base, x));
      StripIsIdempotent(text, interface);
      StrippedIsUnix(text, interface);
      UniversalExact(StripStanzas(text, interface));
    }
  }

  /** The include line of the main file is not lost with a stanza. */
  predicate KeepsInclude(base: Files, o: Option<Node>, interface: string) {
    !NeedsInclude(base, Rewritten(base, o, true, interface))
  }

  // ------------------------------------------------------- steps on one file

  /** Writing the include line: the backup stands, or there was nothing to back up. */
  lemma IncludeKeepsOnTheWay(
    base: Files, o: Option<Node>, b: Option<Node>, x: Option<Node>, y: Option<Node>, interface: string)
    requires OnTheWay(base, o, b, x, y, true, interface)
    requires NeedsInclude(base, x) && Resolve(base, x).Some? ==> y.Some?
    ensures OnTheWay(base, o, b, Included(base, x), y, true, interface)
  {
    IncludedSettles(base, x, interface);
    if NeedsInclude(base, x) && y.None? {
      assert Created(base, Included(base, x), true, interface) == Created(base, x, true, interface);
    }
  }

  lemma BackupKeepsOnTheWay(
    base: Files, o: Option<Node>, b: Option<Node>, x: Option<Node>, y: Option<Node>, main: bool, interface: string)
    requires OnTheWay(base, o, b, x, y, main, interface)
    requires Resolve(base, x).Some? && ((main && NeedsInclude(base, x)) || NeedsStrip(base, x, interface))
    ensures OnTheWay(base, o, b, x, if y.Some? then y else Resolve(base, x), main, interface)
  {
  }

  lemma StripKeepsOnTheWay(
    base: Files, o: Option<Node>, b: Option<Node>, x: Option<Node>, y: Option<Node>, main: bool, interface: string)
    requires OnTheWay(base, o, b, x, y, main, interface)
    requires main ==> !NeedsInclude(base, x) && KeepsInclude(base, o, interface)
    requires NeedsStrip(base, x, interface) ==> y.Some?
    ensures OnTheWay(base, o, b, Stripped(base, x, interface), y, main, interface)
    ensures main ==> !NeedsInclude(base, Stripped(base, x, interface))
  {
    StrippedSettles(base, x, interface);
    assert Stripped(base, x, interface) == Rewritten(base, x, main, interface);
  }

  // -------------------------------------------------------------- file systems

  /** What the ifupdown steps can write. */
  ghost function Footprint(paths: seq<Path>, cloudInit: bool): set<Path> {
    {Managed} + (if cloudInit then {CloudInit} else {}) + (set p <- paths) + (set p <- paths :: BackupOf(p))
  }

  ghost function AsSet(paths: seq<Path>): set<Path> { set p <- paths }

  ghost predicate Distinct(paths: seq<Path>) {
    forall i, j | 0 <= i < j < |paths| :: paths[i] != paths[j]
  }

  /** A path that persisting leaves as it is: a settled file, or a backup that is there or is not made. */
  predicate Unaltered(base: Files, t: Path, paths: seq<Path>, interface: string) {
    || (t in paths && !NeedsStrip(base, At(base, t), interface) && (t.Main? ==> !NeedsInclude(base, At(base, t))))
    || (t.BackupOf? && t.path in paths
        && (t in base || Created(base, At(base, t.path), t.path.Main?, interface).None?))
  }

  /** Links of the base lead to what a persist does not change. */
  ghost predicate LinksSafe(base: Files, paths: seq<Path>, cloudInit: bool, interface: string) {
    forall p <- paths | p in base && base[p].Link? ::
      base[p].target !in Footprint(paths, cloudInit) || Unaltered(base, base[p].target, paths, interface)
  }

  /** What links of the base lead to is as it was. */
  ghost predicate TargetsHeld(files: Files, base: Files, paths: seq<Path>) {
    forall p <- paths | p in base && base[p].Link? :: At(files, base[p].target) == At(base, base[p].target)
  }

  /** A base to persist on: links lead to what is not changed, and no stanza takes the include line along. */
  ghost predicate Startable(base: Files, paths: seq<Path>, cloudInit: bool, interface: string) {
    && paths != [] && paths[0] == Main && Distinct(paths) && (forall p <- paths :: p.HoldsStanzas())
    && BackupsLead(base, AsSet(paths), interface) && LinksSafe(base, paths, cloudInit, interface)
    && (forall o | o == At(base, Main) :: KeepsInclude(base, o, interface))
  }

  /** The pair of `p`. Quantified, so that the verifier looks into a pair only where one is mentioned. */
  ghost predicate PairOnTheWay(files: Files, base: Files, p: Path, interface: string) {
    forall x, y | x == At(files, p) && y == At(files, BackupOf(p)) ::
      OnTheWay(base, At(base, p), At(base, BackupOf(p)), x, y, p.Main?, interface)
  }

  lemma SameMain(after: Files, files: Files, base: Files)
    requires MainIncludes(files, base) && At(after, Main) == At(files, Main)
    ensures MainIncludes(after, base)
  {
  }

  lemma MainSettled(files: Files, base: Files)
    requires !NeedsInclude(base, At(files, Main))
    ensures MainIncludes(files, base)
  {
  }

  lemma OpenPair(files: Files, base: Files, p: Path, interface: string)
    requires PairOnTheWay(files, base, p, interface)
    ensures OnTheWay(base, At(base, p), At(base, BackupOf(p)), At(files, p), At(files, BackupOf(p)), p.Main?, interface)
  {
    hide OnTheWay;
  }

  /** The main file includes the directory; quantified like the pairs. */
  ghost predicate MainIncludes(files: Files, base: Files) {
    forall x | x == At(files, Main) :: !NeedsInclude(base, x)
  }

  ghost predicate Resumable(files: Files, base: Files, paths: seq<Path>, cloudInit: bool, interface: string) {
    && AgreeOutside(files, base, Footprint(paths, cloudInit))
    && Sound(files, base, AsSet(paths), interface) && TargetsHeld(files, base, paths)
    && (forall p <- paths :: PairOnTheWay(files, base, p, interface))
  }

  lemma ReadsResolve(files: Files, base: Files, p: Path, paths: seq<Path>, cloudInit: bool, interface: string)
    requires Resumable(files, base, paths, cloudInit, interface) && p in paths
    ensures Followed(files, p) == Resolve(base, At(files, p))
  {
    hide Rewritten, BackedUp, Sound;
    assert PairOnTheWay(files, base, p, interface);
    OpenPair(files, base, p, interface);
    if p in files && files[p].Link? {
      var t := files[p].target;
      assert At(files, t) == At(base, t);
    }
  }

  lemma MainReads(files: Files, base: Files, paths: seq<Path>, cloudInit: bool, interface: string)
    requires Startable(base, paths, cloudInit, interface) && Resumable(files, base, paths, cloudInit, interface)
    ensures var x := At(files, Main);
            Followed(files, Main) == Resolve(base, x)
            && NewMain(files) == if NeedsInclude(base, x) then Some(WithInclude(ReadText(Resolve(base, x)))) else None
  {
    assert paths[0] in paths && PairOnTheWay(files, base, Main, interface);
    OpenPair(files, base, Main, interface);
    ReadsResolve(files, base, Main, paths, cloudInit, interface);
  }

  lemma StanzasRead(files: Files, base: Files, p: Path, paths: seq<Path>, cloudInit: bool, interface: string)
    requires Startable(base, paths, cloudInit, interface) && Resumable(files, base, paths, cloudInit, interface)
             && p in paths
    ensures var x := At(files, p);
            Followed(files, p) == Resolve(base, x)
            && NewStanzas(files, p, interface)
               == if NeedsStrip(base, x, interface) then Some(StripStanzas(ReadText(Resolve(base, x)), interface))
                 else None
  {
    assert PairOnTheWay(files, base, p, interface);
    OpenPair(files, base, p, interface);
    ReadsResolve(files, base, p, paths, cloudInit, interface);
  }

  lemma SamePair(after: Files, files: Files, base: Files, q: Path, interface: string)
    requires At(after, q) == At(files, q) && At(after, BackupOf(q)) == At(files, BackupOf(q))
    requires PairOnTheWay(files, base, q, interface)
    ensures PairOnTheWay(after, base, q, interface)
  {
  }

  lemma OtherPair(after: Files, files: Files, p: Path, q: Path)
    requires AgreeOutside(after, files, {p, BackupOf(p)}) && p.HoldsStanzas() && q.HoldsStanzas() && p != q
    ensures At(after, q) == At(files, q) && At(after, BackupOf(q)) == At(files, BackupOf(q))
  {
  }

  lemma AgreeThrough(after: Files, files: Files, base: Files, p: Path, paths: seq<Path>, cloudInit: bool)
    requires AgreeOutside(after, files, {p, BackupOf(p)}) && p in paths
             && AgreeOutside(files, base, Footprint(paths, cloudInit))
    ensures AgreeOutside(after, base, Footprint(paths, cloudInit))
  {
    assert p in Footprint(paths, cloudInit) && BackupOf(p) in Footprint(paths, cloudInit);
  }

  /** Changing one file and its backup leaves the other pairs alone. */
  lemma PairChange(
    after: Files, files: Files, base: Files, p: Path, paths: seq<Path>, cloudInit: bool, interface: string)
    requires forall q <- paths :: q.HoldsStanzas()
    requires Resumable(files, base, paths, cloudInit, interface) && p in paths
    requires AgreeOutside(after, files, {p, BackupOf(p)}) && Sound(after, base, AsSet(paths), interface)
    requires PairOnTheWay(after, base, p, interface) && TargetsHeld(after, base, paths)
    ensures Resumable(after, base, paths, cloudInit, interface)
  {
    forall q <- paths
      ensures PairOnTheWay(after, base, q, interface)
    {
      if q != p {
        OtherPair(after, files, p, q);
        SamePair(after, files, base, q, interface);
      }
    }
    AgreeThrough(after, files, base, p, paths, cloudInit);
  }

  /** What a backup step does to a pair. */
  ghost predicate BacksUp(after: Files, files: Files, base: Files, p: Path, needed: bool) {
    && AgreeOutside(after, files, {BackupOf(p)})
    && At(after, BackupOf(p))
         == (if needed && At(files, BackupOf(p)).None? then Resolve(base, At(files, p)) else At(files, BackupOf(p)))
  }

  ghost predicate Puts(after: Files, files: Files, p: Path, x: Option<Node>) {
    AgreeOutside(after, files, {p}) && At(after, p) == x
  }

  lemma CopyBackupEffect(files: Files, base: Files, p: Path, paths: seq<Path>, interface: string)
    requires Sound(files, base, AsSet(paths), interface) && p in paths && Due(files, p, interface)
    ensures var after := CopyBackup(files, p);
            AgreeOutside(after, files, {BackupOf(p)}) && Sound(after, base, AsSet(paths), interface)
            && At(after, BackupOf(p)) == if At(files, BackupOf(p)).None? then Followed(files, p)
                 else At(files, BackupOf(p))
  {
    hide Followed, CopyBackup, Dangles, Spared, Due, SameText;
    if Spared(base, p, interface) {
      SparedStays(files, base, p, interface);
    } else {
      SoundCopies(files, base, AsSet(paths), interface, p);
    }
  }

  lemma RewriteEffect(files: Files, base: Files, p: Path, content: string, paths: seq<Path>, interface: string)
    requires Sound(files, base, AsSet(paths), interface) && Due(files, p, interface)
    ensures var after := Rewrite(files, p, content);
            AgreeOutside(after, files, {p}) && Sound(after, base, AsSet(paths), interface)
            && At(after, p) == Some(File(content, ModeOf(Followed(files, p))))
  {
    hide Sound, Due;
    RewriteKeepsSound(files, base, AsSet(paths), interface, p, content);
  }

  /** What is unaltered needs no write. */
  lemma WriteHoldsTargets(
    after: Files, files: Files, base: Files, p: Path, paths: seq<Path>, cloudInit: bool, interface: string)
    requires LinksSafe(base, paths, cloudInit, interface) && TargetsHeld(files, base, paths) && p in paths
    requires (p.Main? && NeedsInclude(base, At(files, p))) || NeedsStrip(base, At(files, p), interface)
    requires AgreeOutside(after, files, {p}) && forall q <- paths :: q.HoldsStanzas()
    ensures TargetsHeld(after, base, paths)
  {
    hide NeedsInclude, NeedsStrip, Created;
    forall q <- paths | q in base && base[q].Link?
      ensures At(after, base[q].target) == At(base, base[q].target)
    {
      var t := base[q].target;
      assert At(files, t) == At(base, t);
      assert t != p;
      assert At(after, t) == At(files, t);
    }
  }

  /** Nor is a backup made where there is none to make. */
  lemma CopyHoldsTargets(
    after: Files, files: Files, base: Files, p: Path, paths: seq<Path>, cloudInit: bool, interface: string)
    requires LinksSafe(base, paths, cloudInit, interface) && TargetsHeld(files, base, paths) && p in paths
    requires (p.Main? && NeedsInclude(base, At(files, p))) || NeedsStrip(base, At(files, p), interface)
    requires PairOnTheWay(files, base, p, interface) && forall q <- paths :: q.HoldsStanzas()
    requires AgreeOutside(after, files, {BackupOf(p)})
    requires At(after, BackupOf(p)) == if At(files, BackupOf(p)).None? then Resolve(base, At(files, p))
             else At(files, BackupOf(p))
    ensures TargetsHeld(after, base, paths)
  {
    hide NeedsInclude, NeedsStrip, Created, Rewritten, Resolve;
    OpenPair(files, base, p, interface);
    forall q <- paths | q in base && base[q].Link?
      ensures At(after, base[q].target) == At(base, base[q].target)
    {
      var t := base[q].target;
      assert At(files, t) == At(base, t);
      if t == BackupOf(p) {
        NoneCreated(base, At(files, p), p.Main?, interface);
      } else {
        assert At(after, t) == At(files, t);
      }
    }
  }

  lemma NoneCreated(base: Files, x: Option<Node>, main: bool, interface: string)
    requires (main && NeedsInclude(base, x)) || NeedsStrip(base, x, interface)
    ensures Created(base, x, main, interface).None? ==> Resolve(base, x).None?
  {
    hide HasInclude, StripStanzas, Universal;
  }

  /** A needed backup keeps the pair on its way. */
  lemma BackedUpPair(after: Files, files: Files, base: Files, p: Path, interface: string)
    requires PairOnTheWay(files, base, p, interface) && At(after, p) == At(files, p)
    requires (p.Main? && NeedsInclude(base, At(files, p))) || NeedsStrip(base, At(files, p), interface)
    requires At(after, BackupOf(p)) == if At(files, BackupOf(p)).None? then Resolve(base, At(files, p))
             else At(files, BackupOf(p))
    ensures PairOnTheWay(after, base, p, interface)
  {
    var x, y := At(files, p), At(files, BackupOf(p));
    if Resolve(base, x).Some? {
      BackupKeepsOnTheWay(base, At(base, p), At(base, BackupOf(p)), x, y, p.Main?, interface);
    } else {
      SamePair(after, files, base, p, interface);
    }
  }

  lemma BackupMainEffect(files: Files, base: Files, paths: seq<Path>, cloudInit: bool, interface: string)
    requires Startable(base, paths, cloudInit, interface) && Resumable(files, base, paths, cloudInit, interface)
    ensures var after := FileEffect(files, BackupMain, interface);
            BacksUp(after, files, base, Main, NeedsInclude(base, At(files, Main)))
            && Resumable(after, base, paths, cloudInit, interface)
  {
    MainReads(files, base, paths, cloudInit, interface);
    assert paths[0] in paths && PairOnTheWay(files, base, Main, interface);
    if NeedsInclude(base, At(files, Main)) {
      CopyBackupEffect(files, base, Main, paths, interface);
      BackedUpPair(CopyBackup(files, Main), files, base, Main, interface);
      CopyHoldsTargets(CopyBackup(files, Main), files, base, Main, paths, cloudInit, interface);
      PairChange(CopyBackup(files, Main), files, base, Main, paths, cloudInit, interface);
    }
  }

  lemma WriteMainEffect(files: Files, base: Files, paths: seq<Path>, cloudInit: bool, interface: string)
    requires Startable(base, paths, cloudInit, interface) && Resumable(files, base, paths, cloudInit, interface)
    requires var x := At(files, Main); NeedsInclude(base, x) && Resolve(base, x).Some? ==> BackupOf(Main) in files
    ensures var after := FileEffect(files, WriteMain, interface);
            Puts(after, files, Main, Included(base, At(files, Main)))
              && Resumable(after, base, paths, cloudInit, interface)
  {
    hide HasInclude, WithInclude, StripStanzas, Universal, OnTheWay, KeepsInclude, Resolve, CopyBackup;
    var after, x := FileEffect(files, WriteMain, interface), At(files, Main);
    MainReads(files, base, paths, cloudInit, interface);
    assert paths[0] in paths && PairOnTheWay(files, base, Main, interface);
    if NeedsInclude(base, x) {
      RewriteEffect(files, base, Main, WithInclude(ReadText(Resolve(base, x))), paths, interface);
      WriteHoldsTargets(after, files, base, Main, paths, cloudInit, interface);
      IncludeKeepsOnTheWay(base, At(base, Main), At(base, BackupOf(Main)), x, At(files, BackupOf(Main)), interface);
      PairChange(after, files, base, Main, paths, cloudInit, interface);
    }
  }

  lemma StanzaEffects(files: Files, p: Path, interface: string, updated: Option<string>)
    requires NewStanzas(files, p, interface) == updated
    ensures FileEffect(files, BackupStanzas(p), interface) == if updated.Some? then CopyBackup(files, p) else files
    ensures FileEffect(files, WriteStanzas(p), interface) == if updated.Some? then Rewrite(files, p, updated.value)
            else files
  {
  }

  lemma StanzaFiles(files: Files, base: Files, p: Path, paths: seq<Path>, cloudInit: bool, interface: string)
    requires Startable(base, paths, cloudInit, interface) && Resumable(files, base, paths, cloudInit, interface)
             && p in paths
    ensures var x := At(files, p);
            var needed := NeedsStrip(base, x, interface);
            FileEffect(files, BackupStanzas(p), interface) == (if needed then CopyBackup(files, p) else files)
            && FileEffect(files, WriteStanzas(p), interface)
               == (if needed then Rewrite(files, p, StripStanzas(ReadText(Resolve(base, x)), interface)) else files)
            && Followed(files, p) == Resolve(base, x) && (needed ==> Due(files, p, interface))
  {
    StanzasRead(files, base, p, paths, cloudInit, interface);
    StanzaEffects(files, p, interface, NewStanzas(files, p, interface));
  }

  lemma NeededBackup(
    after: Files, files: Files, base: Files, p: Path, paths: seq<Path>, cloudInit: bool, interface: string)
    requires Resumable(files, base, paths, cloudInit, interface) && p in paths && forall q <- paths :: q.HoldsStanzas()
    requires LinksSafe(base, paths, cloudInit, interface) && Due(files, p, interface)
    requires Followed(files, p) == Resolve(base, At(files, p)) && after == CopyBackup(files, p)
    requires (p.Main? && NeedsInclude(base, At(files, p))) || NeedsStrip(base, At(files, p), interface)
    ensures BacksUp(after, files, base, p, true) && Resumable(after, base, paths, cloudInit, interface)
  {
    CopyBackupEffect(files, base, p, paths, interface);
    BackedUpPair(after, files, base, p, interface);
    CopyHoldsTargets(after, files, base, p, paths, cloudInit, interface);
    PairChange(after, files, base, p, paths, cloudInit, interface);
  }

  lemma BackupStanzasEffect(files: Files, base: Files, p: Path, paths: seq<Path>, cloudInit: bool, interface: string)
    requires Startable(base, paths, cloudInit, interface) && Resumable(files, base, paths, cloudInit, interface)
             && p in paths
    ensures var after := FileEffect(files, BackupStanzas(p), interface);
            BacksUp(after, files, base, p, NeedsStrip(base, At(files, p), interface))
            && Resumable(after, base, paths, cloudInit, interface)
  {
    StanzaFiles(files, base, p, paths, cloudInit, interface);
    if NeedsStrip(base, At(files, p), interface) {
      NeededBackup(CopyBackup(files, p), files, base, p, paths, cloudInit, interface);
    }
  }

  lemma StrippedPair(after: Files, files: Files, base: Files, p: Path, interface: string)
    requires PairOnTheWay(files, base, p, interface) && At(after, BackupOf(p)) == At(files, BackupOf(p))
    requires At(after, p) == Stripped(base, At(files, p), interface)
    requires p.Main? ==> !NeedsInclude(base, At(files, p)) && KeepsInclude(base, At(base, p), interface)
    requires NeedsStrip(base, At(files, p), interface) ==> BackupOf(p) in files
    ensures PairOnTheWay(after, base, p, interface)
    ensures p.Main? ==> !NeedsInclude(base, At(after, p))
  {
    StripKeepsOnTheWay(base, At(base, p), At(base, BackupOf(p)), At(files, p), At(files, BackupOf(p)), p.Main?,
                       interface);
  }

  lemma NeededStrip(
    after: Files, files: Files, base: Files, p: Path, paths: seq<Path>, cloudInit: bool, interface: string)
    requires Resumable(files, base, paths, cloudInit, interface) && p in paths && forall q <- paths :: q.HoldsStanzas()
    requires LinksSafe(base, paths, cloudInit, interface) && Due(files, p, interface)
    requires Followed(files, p) == Resolve(base, At(files, p)) && BackupOf(p) in files
    requires p.Main? ==> !NeedsInclude(base, At(files, p)) && KeepsInclude(base, At(base, p), interface)
    requires NeedsStrip(base, At(files, p), interface)
    requires after == Rewrite(files, p, StripStanzas(ReadText(Resolve(base, At(files, p))), interface))
    ensures Puts(after, files, p, Stripped(base, At(files, p), interface))
            && Resumable(after, base, paths, cloudInit, interface)
    ensures p.Main? ==> !NeedsInclude(base, At(after, p))
  {
    RewriteEffect(files, base, p, StripStanzas(ReadText(Resolve(base, At(files, p))), interface), paths, interface);
    WriteHoldsTargets(after, files, base, p, paths, cloudInit, interface);
    StrippedPair(after, files, base, p, interface);
    PairChange(after, files, base, p, paths, cloudInit, interface);
  }

  lemma WriteStanzasEffect(files: Files, base: Files, p: Path, paths: seq<Path>, cloudInit: bool, interface: string)
    requires Startable(base, paths, cloudInit, interface) && Resumable(files, base, paths, cloudInit, interface)
             && p in paths
    requires NeedsStrip(base, At(files, p), interface) ==> BackupOf(p) in files
    requires MainIncludes(files, base)
    ensures var after := FileEffect(files, WriteStanzas(p), interface);
            Puts(after, files, p, Stripped(base, At(files, p), interface))
              && Resumable(after, base, paths, cloudInit, interface)
            && MainIncludes(after, base)
  {
    StanzaFiles(files, base, p, paths, cloudInit, interface);
    var after := FileEffect(files, WriteStanzas(p), interface);
    if NeedsStrip(base, At(files, p), interface) {
      NeededStrip(after, files, base, p, paths, cloudInit, interface);
      assert p == Main || At(after, Main) == At(files, Main);
    }
  }

  // ----------------------------------------------------------------- ifupdown

  lemma FileStep(s: Store, a: Step, interface: string)
    requires !a.Modify?
    ensures Effect(s, a, interface).files == FileEffect(s.files, a, interface)
    ensures Effect(s, a, interface).connections == s.connections
  {
  }

  lemma ExecTwo(s: Store, a: Step, b: Step, interface: string)
    requires !a.Modify? && !b.Modify?
    ensures Exec(s, [a, b], 0, interface) == s
    ensures Exec(s, [a, b], 1, interface).files == FileEffect(s.files, a, interface)
    ensures Exec(s, [a, b], 2, interface).files == FileEffect(FileEffect(s.files, a, interface), b, interface)
    ensures ExecAll(s, [a, b], interface) == Exec(s, [a, b], 2, interface)
    ensures Exec(s, [a, b], 2, interface).connections == s.connections
  {
    assert Exec(s, [a, b], 1, interface) == Effect(Exec(s, [a, b], 0, interface), a, interface);
    FileStep(s, a, interface);
    FileStep(Effect(s, a, interface), b, interface);
  }

  /** A file and its backup after a rewrite to `x`. */
  predicate PairDone(after: Files, before: Files, base: Files, p: Path, x: Option<Node>, needed: bool) {
    && At(after, p) == x
    && At(after, BackupOf(p)) == if needed && At(before, BackupOf(p)).None? then Resolve(base, At(before, p))
         else At(before, BackupOf(p))
  }

  lemma TwoSteps(after: Files, mid: Files, before: Files, base: Files, p: Path, x: Option<Node>, needed: bool)
    requires BacksUp(mid, before, base, p, needed) && Puts(after, mid, p, x) && p.HoldsStanzas()
    ensures AgreeOutside(after, before, {p, BackupOf(p)}) && PairDone(after, before, base, p, x, needed)
    ensures At(mid, p) == At(before, p)
  {
  }

  /** What the include steps leave. */
  lemma IncludeRun(s: Store, base: Files, k: nat, paths: seq<Path>, cloudInit: bool, interface: string)
    requires Startable(base, paths, cloudInit, interface) && Resumable(s.files, base, paths, cloudInit, interface)
             && k <= 2
    ensures Resumable(Exec(s, [BackupMain, WriteMain], k, interface).files, base, paths, cloudInit, interface)
    ensures var after, x := ExecAll(s, [BackupMain, WriteMain], interface), At(s.files, Main);
            AgreeOutside(after.files, s.files, {Main, BackupOf(Main)}) && after.connections == s.connections
            && PairDone(after.files, s.files, base, Main, Included(base, x), NeedsInclude(base, x))
  {
    hide *;
    ExecTwo(s, BackupMain, WriteMain, interface);
    var files, x := s.files, At(s.files, Main);
    var mid := FileEffect(files, BackupMain, interface);
    var after := FileEffect(mid, WriteMain, interface);
    IncludeFiles(files, base, paths, cloudInit, interface);
    TwoSteps(after, mid, files, base, Main, Included(base, x), NeedsInclude(base, x));
  }

  lemma PairKinds(base: Files, p: Path, paths: seq<Path>, cloudInit: bool, interface: string)
    requires Startable(base, paths, cloudInit, interface) && p in paths
    ensures p.HoldsStanzas()
  {
  }

  lemma AfterBackup(mid: Files, files: Files, base: Files, p: Path, needed: bool)
    requires BacksUp(mid, files, base, p, needed) && p.HoldsStanzas()
    ensures At(mid, p) == At(files, p) && At(mid, Main) == At(files, Main)
    ensures needed && Resolve(base, At(files, p)).Some? ==> BackupOf(p) in mid
  {
    hide Resolve;
  }

  lemma StripReads(base: Files, x: Option<Node>, interface: string)
    ensures NeedsStrip(base, x, interface) ==> Resolve(base, x).Some?
  {
  }

  lemma MainHolds()
    ensures Path.Main.HoldsStanzas()
  {
  }

  lemma IncludeFiles(files: Files, base: Files, paths: seq<Path>, cloudInit: bool, interface: string)
    requires Startable(base, paths, cloudInit, interface) && Resumable(files, base, paths, cloudInit, interface)
    ensures var mid := FileEffect(files, BackupMain, interface);
            var after, x := FileEffect(mid, WriteMain, interface), At(files, Main);
            Resumable(mid, base, paths, cloudInit, interface) && Resumable(after, base, paths, cloudInit, interface)
            && BacksUp(mid, files, base, Main, NeedsInclude(base, x)) && Puts(after, mid, Main, Included(base, x))
  {
    hide *;
    var mid := FileEffect(files, BackupMain, interface);
    MainHolds();
    BackupMainEffect(files, base, paths, cloudInit, interface);
    AfterBackup(mid, files, base, Main, NeedsInclude(base, At(files, Main)));
    WriteMainEffect(mid, base, paths, cloudInit, interface);
  }

  lemma StanzaPairFiles(files: Files, base: Files, p: Path, paths: seq<Path>, cloudInit: bool, interface: string)
    requires Startable(base, paths, cloudInit, interface) && Resumable(files, base, paths, cloudInit, interface)
    requires p in paths && MainIncludes(files, base)
    ensures var mid := FileEffect(files, BackupStanzas(p), interface);
            var after, x := FileEffect(mid, WriteStanzas(p), interface), At(files, p);
            Resumable(mid, base, paths, cloudInit, interface) && Resumable(after, base, paths, cloudInit, interface)
            && BacksUp(mid, files, base, p, NeedsStrip(base, x, interface))
                 && Puts(after, mid, p, Stripped(base, x, interface))
            && MainIncludes(after, base) && p.HoldsStanzas()
  {
    hide *;
    var mid := FileEffect(files, BackupStanzas(p), interface);
    PairKinds(base, p, paths, cloudInit, interface);
    BackupStanzasEffect(files, base, p, paths, cloudInit, interface);
    AfterBackup(mid, files, base, p, NeedsStrip(base, At(files, p), interface));
    SameMain(mid, files, base);
    StripReads(base, At(files, p), interface);
    WriteStanzasEffect(mid, base, p, paths, cloudInit, interface);
  }

  /** A pair after its stanza steps. */
  predicate StanzasDone(after: Files, before: Files, base: Files, p: Path, interface: string) {
    PairDone(after, before, base, p, Stripped(base, At(before, p), interface),
             NeedsStrip(base, At(before, p), interface))
  }

  /** What the stanza steps of one file leave. */
  lemma StanzaRunOne(s: Store, base: Files, p: Path, k: nat, paths: seq<Path>, cloudInit: bool, interface: string)
    requires Startable(base, paths, cloudInit, interface) && Resumable(s.files, base, paths, cloudInit, interface)
    requires p in paths && MainIncludes(s.files, base) && k <= 2
    ensures Resumable(Exec(s, [BackupStanzas(p), WriteStanzas(p)], k, interface).files, base, paths, cloudInit,
                      interface)
    ensures var after := ExecAll(s, [BackupStanzas(p), WriteStanzas(p)], interface);
            AgreeOutside(after.files, s.files, {p, BackupOf(p)}) && after.connections == s.connections
            && MainIncludes(after.files, base) && StanzasDone(after.files, s.files, base, p, interface)
  {
    hide *;
    var mid, x := FileEffect(s.files, BackupStanzas(p), interface), At(s.files, p);
    var after := FileEffect(mid, WriteStanzas(p), interface);
    ExecTwo(s, BackupStanzas(p), WriteStanzas(p), interface);
    StanzaPairFiles(s.files, base, p, paths, cloudInit, interface);
    TwoSteps(after, mid, s.files, base, p, Stripped(base, x, interface), NeedsStrip(base, x, interface));
    PairIsDone(after, s.files, base, p, interface);
  }

  lemma PairIsDone(after: Files, before: Files, base: Files, p: Path, interface: string)
    requires PairDone(after, before, base, p, Stripped(base, At(before, p), interface),
                      NeedsStrip(base, At(before, p), interface))
    ensures StanzasDone(after, before, base, p, interface)
  {
  }

  lemma ExecNone(s: Store, program: seq<Step>, interface: string)
    ensures Exec(s, program, 0, interface) == s
  {
  }

  lemma NoTodo(todo: seq<Path>)
    ensures StanzaSteps(todo) != [] ==> todo != []
  {
  }

  lemma FirstTodo(todo: seq<Path>)
    requires todo != []
    ensures StanzaSteps(todo) == [BackupStanzas(todo[0]), WriteStanzas(todo[0])] + StanzaSteps(todo[1..])
    ensures todo[0] in todo && forall q <- todo[1..] :: q in todo
  {
  }

  lemma {:induction false} StanzaPrefix(
    s: Store, base: Files, todo: seq<Path>, k: nat, paths: seq<Path>, cloudInit: bool, interface: string)
    requires Startable(base, paths, cloudInit, interface) && Resumable(s.files, base, paths, cloudInit, interface)
    requires MainIncludes(s.files, base) && (forall p <- todo :: p in paths) && k <= |StanzaSteps(todo)|
    ensures Resumable(Exec(s, StanzaSteps(todo), k, interface).files, base, paths, cloudInit, interface)
    decreases |todo|
  {
    hide *;
    if k == 0 {
      ExecNone(s, StanzaSteps(todo), interface);
    } else {
      NoTodo(todo);
      var p, rest := todo[0], todo[1..];
      var pair := [BackupStanzas(p), WriteStanzas(p)];
      FirstTodo(todo);
      if k <= 2 {
        StanzaRunOne(s, base, p, k, paths, cloudInit, interface);
        ExecPrefix(s, pair, StanzaSteps(rest), k, interface);
      } else {
        StanzaRunOne(s, base, p, 2, paths, cloudInit, interface);
        ExecConcat(s, pair, StanzaSteps(rest), k - 2, interface);
        ExecAllIs(s, pair, interface);
        StanzaPrefix(ExecAll(s, pair, interface), base, rest, k - 2, paths, cloudInit, interface);
      }
    }
  }

  ghost function PairPaths(paths: seq<Path>): set<Path> {
    (set p <- paths) + (set p <- paths :: BackupOf(p))
  }

  lemma DoneElsewhere(after: Files, mid: Files, before: Files, base: Files, p: Path, q: Path, interface: string)
    requires StanzasDone(after, mid, base, q, interface) && AgreeOutside(mid, before, {p, BackupOf(p)})
    requires p.HoldsStanzas() && q.HoldsStanzas() && p != q
    ensures StanzasDone(after, before, base, q, interface)
  {
    OtherPair(mid, before, p, q);
  }

  lemma DoneStays(after: Files, mid: Files, before: Files, base: Files, p: Path, rest: seq<Path>, interface: string)
    requires StanzasDone(mid, before, base, p, interface) && AgreeOutside(after, mid, PairPaths(rest))
    requires p.HoldsStanzas() && p !in rest && forall q <- rest :: q.HoldsStanzas()
    ensures StanzasDone(after, before, base, p, interface)
  {
    assert p !in PairPaths(rest) && BackupOf(p) !in PairPaths(rest);
  }

  lemma AgreeChain(after: Files, mid: Files, before: Files, p: Path, rest: seq<Path>, todo: seq<Path>)
    requires AgreeOutside(after, mid, PairPaths(rest)) && AgreeOutside(mid, before, {p, BackupOf(p)})
    requires todo != [] && p == todo[0] && rest == todo[1..]
    ensures AgreeOutside(after, before, PairPaths(todo))
  {
    assert PairPaths(todo) == PairPaths(rest) + {p, BackupOf(p)};
  }

  lemma TodoParts(base: Files, todo: seq<Path>, paths: seq<Path>, cloudInit: bool, interface: string)
    requires Startable(base, paths, cloudInit, interface) && (forall p <- todo :: p in paths) && Distinct(todo)
             && todo != []
    ensures StanzaSteps(todo) == [BackupStanzas(todo[0]), WriteStanzas(todo[0])] + StanzaSteps(todo[1..])
    ensures todo[0] in paths && todo[0] !in todo[1..] && Distinct(todo[1..]) && (forall q <- todo[1..] :: q in todo)
    ensures forall q <- todo :: q.HoldsStanzas()
  {
    hide NeedsInclude, Rewritten;
    assert forall q <- todo[1..] :: q in todo;
    assert todo[0] in todo;
  }

  lemma {:induction false} StanzaRun(
    s: Store, base: Files, todo: seq<Path>, paths: seq<Path>, cloudInit: bool, interface: string)
    requires Startable(base, paths, cloudInit, interface) && Resumable(s.files, base, paths, cloudInit, interface)
    requires MainIncludes(s.files, base) && (forall p <- todo :: p in paths) && Distinct(todo)
    ensures var after := ExecAll(s, StanzaSteps(todo), interface);
            after.connections == s.connections && AgreeOutside(after.files, s.files, PairPaths(todo))
            && (forall p <- todo :: StanzasDone(after.files, s.files, base, p, interface))
    decreases |todo|
  {
    if todo == [] {
      assert StanzaSteps(todo) == [];
    } else {
      hide *;
      var p, rest := todo[0], todo[1..];
      var pair := [BackupStanzas(p), WriteStanzas(p)];
      TodoParts(base, todo, paths, cloudInit, interface);
      StanzaRunOne(s, base, p, 2, paths, cloudInit, interface);
      var mid := ExecAll(s, pair, interface);
      assert mid == Exec(s, pair, 2, interface) by { ExecAllIs(s, pair, interface); }
      StanzaRun(mid, base, rest, paths, cloudInit, interface);
      var after := ExecAll(mid, StanzaSteps(rest), interface);
      ExecAllConcat(s, pair, StanzaSteps(rest), interface);
      AgreeChain(after.files, mid.files, s.files, p, rest, todo);
      DoneStays(after.files, mid.files, s.files, base, p, rest, interface);
      forall q <- todo
        ensures StanzasDone(after.files, s.files, base, q, interface)
      {
        if q != p {
          assert q in rest;
          DoneElsewhere(after.files, mid.files, s.files, base, p, q, interface);
        }
      }
    }
  }

  lemma ExecAllIs(s: Store, program: seq<Step>, interface: string)
    ensures ExecAll(s, program, interface) == Exec(s, program, |program|, interface)
  {
  }

  lemma ExecAllConcat(s: Store, a: seq<Step>, b: seq<Step>, interface: string)
    ensures ExecAll(s, a + b, interface) == ExecAll(ExecAll(s, a, interface), b, interface)
  {
    ExecConcat(s, a, b, |b|, interface);
  }

  lemma WrittenIsAltered(base: Files, q: Path, paths: seq<Path>, cloudInit: bool, interface: string)
    requires (q.Managed? || (q.CloudInit? && cloudInit)) && forall p <- paths :: p.HoldsStanzas()
    ensures q in Footprint(paths, cloudInit) && !Unaltered(base, q, paths, interface)
  {
  }

  /** A write beside the pairs. */
  lemma OtherWrite(
    s: Store, base: Files, q: Path, content: string, paths: seq<Path>, cloudInit: bool, interface: string)
    requires Startable(base, paths, cloudInit, interface) && Resumable(s.files, base, paths, cloudInit, interface)
    requires q.Managed? || (q.CloudInit? && cloudInit)
    ensures var after := Effect(s, Write(q, content, 0x1A4), interface);
            Resumable(after.files, base, paths, cloudInit, interface) && AgreeOutside(after.files, s.files, {q})
            && At(after.files, q) == Some(File(content, 0x1A4)) && after.connections == s.connections
  {
    hide OnTheWay, NeedsInclude, Rewritten, KeepsInclude, Sound, BackupsLead;
    var after := Effect(s, Write(q, content, 0x1A4), interface);
    FileKeepsSound(s.files, base, AsSet(paths), interface, q, File(content, 0x1A4));
    assert TargetsHeld(after.files, base, paths) by {
      forall p <- paths | p in base && base[p].Link?
        ensures At(after.files, base[p].target) == At(base, base[p].target)
      {
        WrittenIsAltered(base, q, paths, cloudInit, interface);
        assert At(s.files, base[p].target) == At(base, base[p].target);
      }
    }
    forall p <- paths
      ensures PairOnTheWay(after.files, base, p, interface)
    {
      assert p.HoldsStanzas();
      SamePair(after.files, s.files, base, p, interface);
    }
  }

  lemma IncludeSettled(s: Store, base: Files, paths: seq<Path>, cloudInit: bool, interface: string)
    requires Startable(base, paths, cloudInit, interface) && Resumable(s.files, base, paths, cloudInit, interface)
    ensures MainIncludes(ExecAll(s, [BackupMain, WriteMain], interface).files, base)
  {
    hide *;
    IncludeRun(s, base, 2, paths, cloudInit, interface);
    IncludedOf(ExecAll(s, [BackupMain, WriteMain], interface).files, s.files, base);
    IncludedSettles(base, At(s.files, Main), interface);
    MainSettled(ExecAll(s, [BackupMain, WriteMain], interface).files, base);
  }

  lemma IncludedOf(after: Files, before: Files, base: Files)
    requires PairDone(after, before, base, Main, Included(base, At(before, Main)), NeedsInclude(base, At(before, Main)))
    ensures At(after, Main) == Included(base, At(before, Main))
  {
  }

  function CloudSteps(cloudInit: bool): seq<Step> {
    if cloudInit then [Write(CloudInit, CLOUD_INIT_CONTENT, 0x1A4)] else []
  }

  /** The ifupdown steps behind the include steps. */
  function AfterInclude(paths: seq<Path>, managed: string, cloudInit: bool): seq<Step> {
    [Write(Managed, managed, 0x1A4)] + (StanzaSteps(paths) + CloudSteps(cloudInit))
  }

  function IfupdownSteps(paths: seq<Path>, managed: string, cloudInit: bool): seq<Step> {
    [BackupMain, WriteMain] + AfterInclude(paths, managed, cloudInit)
  }

  /** State behind the write of the managed file. */
  function WithManaged(s: Store, managed: string, interface: string): Store {
    Effect(ExecAll(s, [BackupMain, WriteMain], interface), Write(Managed, managed, 0x1A4), interface)
  }

  lemma ManagedRun(s: Store, base: Files, managed: string, paths: seq<Path>, cloudInit: bool, interface: string)
    requires Startable(base, paths, cloudInit, interface) && Resumable(s.files, base, paths, cloudInit, interface)
    ensures var mid, after := ExecAll(s, [BackupMain, WriteMain], interface), WithManaged(s, managed, interface);
            Resumable(mid.files, base, paths, cloudInit, interface)
              && Resumable(after.files, base, paths, cloudInit, interface)
            && MainIncludes(after.files, base) && AgreeOutside(after.files, mid.files, {Managed})
            && At(after.files, Managed) == Some(File(managed, 0x1A4)) && after.connections == s.connections
  {
    hide Resumable, Startable, NeedsInclude, Exec, FileEffect;
    IncludeRun(s, base, 2, paths, cloudInit, interface);
    IncludeSettled(s, base, paths, cloudInit, interface);
    OtherWrite(ExecAll(s, [BackupMain, WriteMain], interface), base, Managed, managed, paths, cloudInit, interface);
  }

  lemma ExecHead(s: Store, a: Step, rest: seq<Step>, k: nat, interface: string)
    requires 0 < k <= |rest| + 1
    ensures Exec(s, [a] + rest, k, interface) == Exec(Effect(s, a, interface), rest, k - 1, interface)
  {
    hide Effect;
    ExecConcat(s, [a], rest, k - 1, interface);
    ExecOne(s, a, interface);
  }

  lemma ExecSplit(s: Store, managed: string, rest: seq<Step>, k: nat, interface: string)
    requires 2 < k <= |rest| + 3
    ensures Exec(s, [BackupMain, WriteMain] + ([Write(Managed, managed, 0x1A4)] + rest), k, interface)
         == Exec(WithManaged(s, managed, interface), rest, k - 3, interface)
  {
    hide Effect, Exec;
    var mid := ExecAll(s, [BackupMain, WriteMain], interface);
    ExecConcat(s, [BackupMain, WriteMain], [Write(Managed, managed, 0x1A4)] + rest, k - 2, interface);
    ExecHead(mid, Write(Managed, managed, 0x1A4), rest, k - 2, interface);
  }

  /** Interrupting the ifupdown steps anywhere leaves a state to resume from. */
  lemma IfupdownPrefix(
    s: Store, base: Files, k: nat, paths: seq<Path>, managed: string, cloudInit: bool, interface: string)
    requires Startable(base, paths, cloudInit, interface) && Resumable(s.files, base, paths, cloudInit, interface)
    requires k <= |IfupdownSteps(paths, managed, cloudInit)|
    ensures Resumable(Exec(s, IfupdownSteps(paths, managed, cloudInit), k, interface).files, base, paths, cloudInit,
                      interface)
  {
    hide Resumable, Startable, NeedsInclude, Exec, Effect;
    if k <= 2 {
      IncludeRun(s, base, k, paths, cloudInit, interface);
      ExecPrefix(s, [BackupMain, WriteMain], AfterInclude(paths, managed, cloudInit), k, interface);
    } else {
      var mid := WithManaged(s, managed, interface);
      ManagedRun(s, base, managed, paths, cloudInit, interface);
      ExecSplit(s, managed, StanzaSteps(paths) + CloudSteps(cloudInit), k, interface);
      BehindManaged(mid, base, k - 3, paths, cloudInit, interface);
    }
  }

  lemma BehindManaged(s: Store, base: Files, k: nat, paths: seq<Path>, cloudInit: bool, interface: string)
    requires Startable(base, paths, cloudInit, interface) && Resumable(s.files, base, paths, cloudInit, interface)
    requires MainIncludes(s.files, base) && k <= |StanzaSteps(paths)| + |CloudSteps(cloudInit)|
    ensures Resumable(Exec(s, StanzaSteps(paths) + CloudSteps(cloudInit), k, interface).files, base, paths, cloudInit,
                      interface)
  {
    hide Resumable, Startable, NeedsInclude, Exec, Effect, StanzaSteps;
    var a, b := StanzaSteps(paths), CloudSteps(cloudInit);
    if k <= |a| {
      StanzaPrefix(s, base, paths, k, paths, cloudInit, interface);
      ExecPrefix(s, a, b, k, interface);
    } else {
      StanzaPrefix(s, base, paths, |a|, paths, cloudInit, interface);
      ExecAllIs(s, a, interface);
      var mid := ExecAll(s, a, interface);
      ExecConcat(s, a, b, k - |a|, interface);
      ExecOne(mid, b[0], interface);
      OtherWrite(mid, base, CloudInit, CLOUD_INIT_CONTENT, paths, cloudInit, interface);
    }
  }

  /** The files one uninterrupted run makes of `base`. */
  ghost predicate Persisted(
    result: Files, base: Files, paths: seq<Path>, managed: string, cloudInit: bool, interface: string)
  {
    && AgreeOutside(result, base, Footprint(paths, cloudInit))
    && At(result, Managed) == Some(File(managed, 0x1A4))
    && (cloudInit ==> At(result, CloudInit) == Some(File(CLOUD_INIT_CONTENT, 0x1A4)))
    && (forall p <- paths :: PairPersisted(result, base, p, interface))
  }

  /** A file rewritten once, with the original in its backup unless one was there. */
  ghost predicate PairPersisted(result: Files, base: Files, p: Path, interface: string) {
    var o, b := At(base, p), At(base, BackupOf(p));
    && At(result, p) == Rewritten(base, o, p.Main?, interface)
    && At(result, BackupOf(p)) == BackedUp(base, o, b, p.Main?, interface)
  }

  lemma PersistedUnique(
    a: Files, b: Files, base: Files, paths: seq<Path>, managed: string, cloudInit: bool, interface: string)
    requires Persisted(a, base, paths, managed, cloudInit, interface)
             && Persisted(b, base, paths, managed, cloudInit, interface)
    ensures a == b
  {
    hide Rewritten, BackedUp;
    forall q
      ensures At(a, q) == At(b, q)
    {
      if q in Footprint(paths, cloudInit) && !q.Managed? && !q.CloudInit? {
        if q !in paths {
          var p :| p in paths && q == BackupOf(p);
          assert PairPersisted(a, base, p, interface) && PairPersisted(b, base, p, interface);
        } else {
          assert PairPersisted(a, base, q, interface) && PairPersisted(b, base, q, interface);
        }
      } else if q !in Footprint(paths, cloudInit) {
        assert q in a <==> q in base;
      }
    }
    SameAt(a, b);
  }

  lemma SameAt(a: Files, b: Files)
    requires forall q :: At(a, q) == At(b, q)
    ensures a == b
  {
    assert forall q :: q in a <==> At(a, q).Some?;
    assert forall q :: q in b <==> At(b, q).Some?;
    assert a.Keys == b.Keys;
    forall q <- a ensures a[q] == b[q] { assert At(a, q) == At(b, q); }
  }

  /** Files after the include steps and the managed file, seen from the start. */
  ghost predicate Halfway(mid: Files, s: Files, base: Files) {
    && AgreeOutside(mid, s, {Main, BackupOf(Main), Managed})
    && PairDone(mid, s, base, Main, Included(base, At(s, Main)), NeedsInclude(base, At(s, Main)))
  }

  lemma MainPair(result: Files, mid: Files, s: Files, base: Files, interface: string)
    requires Halfway(mid, s, base) && StanzasDone(result, mid, base, Main, interface)
    ensures At(result, Main) == Rewritten(base, At(s, Main), true, interface)
    ensures At(result, BackupOf(Main)) == BackedUp(base, At(s, Main), At(s, BackupOf(Main)), true, interface)
  {
    hide HasInclude, WithInclude, StripStanzas, Universal;
    IncludedSettles(base, At(s, Main), interface);
  }

  lemma StanzaPair(result: Files, mid: Files, s: Files, base: Files, p: Path, interface: string)
    requires Halfway(mid, s, base) && p.InDir? && StanzasDone(result, mid, base, p, interface)
    ensures At(result, p) == Rewritten(base, At(s, p), false, interface)
    ensures At(result, BackupOf(p)) == BackedUp(base, At(s, p), At(s, BackupOf(p)), false, interface)
  {
    hide NeedsInclude, NeedsStrip, Included, Resolve;
    assert At(mid, p) == At(s, p) && At(mid, BackupOf(p)) == At(s, BackupOf(p));
  }

  lemma PairFinished(result: Files, mid: Files, s: Files, base: Files, p: Path, interface: string)
    requires Halfway(mid, s, base) && p.HoldsStanzas() && StanzasDone(result, mid, base, p, interface)
    requires PairOnTheWay(s, base, p, interface)
    ensures PairPersisted(result, base, p, interface)
  {
    hide Halfway, StanzasDone, Rewritten, BackedUp;
    OpenPair(s, base, p, interface);
    if p.Main? { MainPair(result, mid, s, base, interface); } else { StanzaPair(result, mid, s, base, p, interface); }
  }

  lemma HalfwayThere(s: Store, base: Files, managed: string, paths: seq<Path>, cloudInit: bool, interface: string)
    requires Startable(base, paths, cloudInit, interface) && Resumable(s.files, base, paths, cloudInit, interface)
    ensures Halfway(WithManaged(s, managed, interface).files, s.files, base)
    ensures WithManaged(s, managed, interface).connections == s.connections
  {
    hide Resumable, Startable, Exec, ExecAll, Effect, NeedsInclude, Included, Resolve;
    IncludeRun(s, base, 2, paths, cloudInit, interface);
    ManagedRun(s, base, managed, paths, cloudInit, interface);
  }

  lemma CloudRun(s: Store, base: Files, paths: seq<Path>, cloudInit: bool, interface: string)
    requires Startable(base, paths, cloudInit, interface) && Resumable(s.files, base, paths, cloudInit, interface)
    ensures var after := ExecAll(s, CloudSteps(cloudInit), interface);
            Resumable(after.files, base, paths, cloudInit, interface) && AgreeOutside(after.files, s.files, {CloudInit})
            && after.connections == s.connections
            && (cloudInit ==> At(after.files, CloudInit) == Some(File(CLOUD_INIT_CONTENT, 0x1A4)))
  {
    hide Resumable, Startable, Effect;
    if cloudInit {
      ExecOne(s, Write(CloudInit, CLOUD_INIT_CONTENT, 0x1A4), interface);
      OtherWrite(s, base, CloudInit, CLOUD_INIT_CONTENT, paths, cloudInit, interface);
    } else {
      assert CloudSteps(cloudInit) == [];
    }
  }

  lemma IfupdownStages(s: Store, paths: seq<Path>, managed: string, cloudInit: bool, interface: string)
    ensures ExecAll(s, IfupdownSteps(paths, managed, cloudInit), interface)
         == ExecAll(ExecAll(WithManaged(s, managed, interface), StanzaSteps(paths), interface), CloudSteps(cloudInit),
                    interface)
  {
    hide Exec, Effect;
    var rest := StanzaSteps(paths) + CloudSteps(cloudInit);
    ExecSplit(s, managed, rest, |rest| + 3, interface);
    ExecAllConcat(WithManaged(s, managed, interface), StanzaSteps(paths), CloudSteps(cloudInit), interface);
  }

  lemma FinalPairs(
    result: Files, done: Files, mid: Files, s: Files, base: Files, paths: seq<Path>, cloudInit: bool,
    interface: string)
    requires Startable(base, paths, cloudInit, interface) && Resumable(s, base, paths, cloudInit, interface)
    requires Halfway(mid, s, base) && AgreeOutside(result, done, {CloudInit})
    requires forall p <- paths :: StanzasDone(done, mid, base, p, interface)
    ensures forall p <- paths :: PairPersisted(result, base, p, interface)
  {
    hide Halfway, StanzasDone, PairOnTheWay, KeepsInclude, Rewritten, BackedUp;
    forall p <- paths
      ensures PairPersisted(result, base, p, interface)
    {
      assert p.HoldsStanzas();
      PairFinished(done, mid, s, base, p, interface);
      assert At(result, p) == At(done, p) && At(result, BackupOf(p)) == At(done, BackupOf(p));
    }
  }

  lemma ManagedStays(result: Files, done: Files, mid: Files, paths: seq<Path>)
    requires AgreeOutside(result, done, {CloudInit}) && AgreeOutside(done, mid, PairPaths(paths))
    requires forall p <- paths :: p.HoldsStanzas()
    ensures At(result, Managed) == At(mid, Managed)
  {
    assert Managed !in PairPaths(paths);
  }

  /** Run to the end from any state to resume from, the ifupdown steps make the same files. */
  lemma IfupdownRun(s: Store, base: Files, paths: seq<Path>, managed: string, cloudInit: bool, interface: string)
    requires Startable(base, paths, cloudInit, interface) && Resumable(s.files, base, paths, cloudInit, interface)
    ensures var after := ExecAll(s, IfupdownSteps(paths, managed, cloudInit), interface);
            after.connections == s.connections && Persisted(after.files, base, paths, managed, cloudInit, interface)
  {
    hide Resumable, Exec, ExecAll, Effect, NeedsInclude, PairPersisted, StanzasDone, Halfway, KeepsInclude;
    var mid := WithManaged(s, managed, interface);
    var done := ExecAll(mid, StanzaSteps(paths), interface);
    var result := ExecAll(done, CloudSteps(cloudInit), interface);
    IfupdownStages(s, paths, managed, cloudInit, interface);
    ManagedRun(s, base, managed, paths, cloudInit, interface);
    HalfwayThere(s, base, managed, paths, cloudInit, interface);
    assert forall p <- paths :: p in paths;
    StanzaRun(mid, base, paths, paths, cloudInit, interface);
    StanzaPrefix(mid, base, paths, |StanzaSteps(paths)|, paths, cloudInit, interface);
    ExecAllIs(mid, StanzaSteps(paths), interface);
    CloudRun(done, base, paths, cloudInit, interface);
    FinalPairs(result.files, done.files, mid.files, s.files, base, paths, cloudInit, interface);
    ManagedStays(result.files, done.files, mid.files, paths);
    ResumableAgrees(result.files, base, paths, cloudInit, interface);
  }

  lemma ResumableAgrees(files: Files, base: Files, paths: seq<Path>, cloudInit: bool, interface: string)
    requires Resumable(files, base, paths, cloudInit, interface)
    ensures AgreeOutside(files, base, Footprint(paths, cloudInit))
  {
  }

  lemma StartsOnTheWay(base: Files, paths: seq<Path>, cloudInit: bool, interface: string)
    requires Startable(base, paths, cloudInit, interface)
    ensures Resumable(base, base, paths, cloudInit, interface)
  {
    hide Rewritten, BackedUp, KeepsInclude, Sound, BackupsLead;
    SoundAtBase(base, AsSet(paths), interface);
  }

  /**
   Confluence: run again from any state that interrupted runs leave, the ifupdown
   steps end where one uninterrupted run ends, with the original files in the backups.
   */
  lemma IfupdownResumes(s: Store, base: Store, paths: seq<Path>, managed: string, cloudInit: bool, interface: string)
    requires Startable(base.files, paths, cloudInit, interface)
             && Resumable(s.files, base.files, paths, cloudInit, interface)
    requires s.connections == base.connections
    ensures ExecAll(s, IfupdownSteps(paths, managed, cloudInit), interface)
         == ExecAll(base, IfupdownSteps(paths, managed, cloudInit), interface)
  {
    hide *;
    StartsOnTheWay(base.files, paths, cloudInit, interface);
    IfupdownRun(s, base.files, paths, managed, cloudInit, interface);
    IfupdownRun(base, base.files, paths, managed, cloudInit, interface);
    PersistedUnique(ExecAll(s, IfupdownSteps(paths, managed, cloudInit), interface).files,
                    ExecAll(base, IfupdownSteps(paths, managed, cloudInit), interface).files,
                    base.files, paths, managed, cloudInit, interface);
  }

  /** A file that was changed has its original in the new backup; one that was not has none. */
  lemma BackupHoldsOriginal(result: Files, base: Files, p: Path, interface: string)
    requires PairPersisted(result, base, p, interface) && At(base, BackupOf(p)).None?
    ensures At(result, p) != At(base, p) && Resolve(base, At(base, p)).Some? ==>
            At(result, BackupOf(p)) == Resolve(base, At(base, p))
    ensures !((p.Main? && NeedsInclude(base, At(base, p))) || NeedsStrip(base, At(base, p), interface)) ==>
              At(result, p) == At(base, p) && At(result, BackupOf(p)).None?
  {
    hide HasInclude, WithInclude, StripStanzas, Universal;
    if p.Main? { IncludedSettles(base, At(base, p), interface); }
  }

  /**
   What persisting is for: afterwards no file but the managed one has a stanza of the
   interface, the managed one has the rendered text, and the main file includes it.
   */
  lemma InterfaceOnlyInManagedFile(
    result: Files, base: Files, paths: seq<Path>, managed: string, cloudInit: bool, interface: string)
    requires Startable(base, paths, cloudInit, interface)
             && Persisted(result, base, paths, managed, cloudInit, interface)
    ensures At(result, Managed) == Some(File(managed, 0x1A4)) && MainIncludes(result, base)
    ensures forall p <- paths | Resolve(base, At(result, p)).Some? ::
              forall l <- SplitLines(ReadText(Resolve(base, At(result, p)))) :: !IsHeader(l, interface)
  {
    hide NeedsInclude, Included, Resolve, IsHeader, Created, Footprint, StripStanzas, ReadText;
    assert paths[0] in paths && PairPersisted(result, base, Main, interface);
    assert KeepsInclude(base, At(base, Main), interface);
    forall p <- paths | Resolve(base, At(result, p)).Some?
      ensures forall l <- SplitLines(ReadText(Resolve(base, At(result, p)))) :: !IsHeader(l, interface)
    {
      assert PairPersisted(result, base, p, interface);
      StrippedSettles(base, if p.Main? then Included(base, At(base, p)) else At(base, p), interface);
      NoHeaderWhenSettled(base, At(result, p), interface);
    }
  }

  lemma NoHeaderWhenSettled(base: Files, x: Option<Node>, interface: string)
    requires !NeedsStrip(base, x, interface) && Resolve(base, x).Some?
    ensures forall l <- SplitLines(ReadText(Resolve(base, x))) :: !IsHeader(l, interface)
  {
    hide Resolve, IsHeader, StripStanzas, ReadText;
    StripFixes(ReadText(Resolve(base, x)), interface);
  }

  // ------------------------------------------------------------------- restores

  /** The listed paths before `i` are as in the base. */
  ghost predicate RestoredUpTo(files: Files, base: Files, listing: seq<Path>, i: nat)
    requires i <= |listing|
  {
    forall j | 0 <= j < i :: At(files, listing[j]) == At(base, listing[j])
  }

  lemma BackOnTheWay(
    base: Files, o: Option<Node>, b: Option<Node>, x: Option<Node>, y: Option<Node>, main: bool, interface: string)
    requires OnTheWay(base, o, b, x, y, main, interface)
    ensures OnTheWay(base, o, b, o, y, main, interface) && OnTheWay(base, o, b, o, b, main, interface)
  {
    hide Rewritten, BackedUp;
  }

  /** Putting one path back, a file before its backup. */
  lemma PutBack(after: Files, files: Files, base: Files, q: Path, paths: seq<Path>, cloudInit: bool, interface: string)
    requires Startable(base, paths, cloudInit, interface) && Resumable(files, base, paths, cloudInit, interface)
    requires AgreeOutside(after, files, {q}) && At(after, q) == At(base, q)
    requires q.BackupOf? && q.path in paths ==> At(files, q.path) == At(base, q.path)
    ensures Resumable(after, base, paths, cloudInit, interface)
  {
    hide OnTheWay, KeepsInclude, Footprint, Sound, BackupsLead;
    forall p <- paths
      ensures PairOnTheWay(after, base, p, interface)
    {
      assert p.HoldsStanzas() && PairOnTheWay(files, base, p, interface);
      BackOnTheWay(base, At(base, p), At(base, BackupOf(p)), At(files, p), At(files, BackupOf(p)), p.Main?, interface);
      if p != q && BackupOf(p) != q { SamePair(after, files, base, p, interface); }
    }
    assert AgreeOutside(after, base, Footprint(paths, cloudInit)) by {
      forall r | r !in Footprint(paths, cloudInit)
        ensures At(after, r) == At(base, r)
      {
        assert r == q || At(after, r) == At(files, r);
      }
    }
    PutBackIsSound(after, files, base, q, AsSet(paths), interface);
    assert TargetsHeld(after, base, paths) by {
      forall p <- paths | p in base && base[p].Link?
        ensures At(after, base[p].target) == At(base, base[p].target)
      {
        var t := base[p].target;
        assert At(files, t) == At(base, t) && (t == q || At(after, t) == At(files, t));
      }
    }
  }

  lemma PutBackIsSound(
    after: Files, files: Files, base: Files, q: Path, rewritable: set<Path>, interface: string)
    requires Sound(files, base, rewritable, interface) && BackupsLead(base, rewritable, interface)
    requires AgreeOutside(after, files, {q}) && At(after, q) == At(base, q)
    ensures Sound(after, base, rewritable, interface)
  {
    hide Spared;
    forall p <- rewritable | Spared(base, p, interface) ensures SameText(after, base, p) {
      assert SameText(files, base, p) && (p == q || At(after, p) == At(files, p));
    }
    forall r <- after | after[r].Link? ensures r in base && base[r] == after[r] {
      assert r == q || At(after, r) == At(files, r);
    }
    forall p <- rewritable | !Spared(base, p, interface) && BackupOf(p) in base && base[BackupOf(p)].Link?
      ensures var t := base[BackupOf(p)].target; t in after && !after[t].Link?
    {
      var t := base[BackupOf(p)].target;
      assert !Dangles(base, BackupOf(p)) && (t == q || At(after, t) == At(files, t));
    }
  }
}
