/** Rolling update of a cluster: preflight of every target, then one node after the other. */
module ClusterUpdate {
  import opened Wrappers

  /** A maintenance audit; whether a reboot is required may be unknown. */
  datatype Report = Report(healthy: bool, rebootRequired: Option<bool>, rebootSafe: bool)
  {
    predicate NeedsReboot() { rebootRequired == Some(true) }
  }

  datatype Setup = Setup(host: string, local: bool, proxmox: bool, valid: bool)

  /** One target with the answers it will give: to the audits, the patch run and the reboot. */
  datatype Node = Node(name: string, setup: Option<Setup>, before: Report, patch: int, patched: Report, comesBack: bool,
                       rebooted: Report)

  datatype Status = Updated | Failed | Skipped

  datatype Reason =
    | NoSetup | LocalTarget | NotProxmox | InvalidConfig | Unhealthy | BlockedBefore
    | PatchFailed | DryRun | AuditFailed | NoReboot | RebootBlocked | RebootFailed | AuditFailedAfterReboot | Rebooted
    | SkippedAfter(name: string)

  datatype Result = Result(name: string, host: Option<string>, status: Status, rebootRequired: bool, rebooted: bool,
                           reason: Reason)

  /** What is done to the nodes, in order; `node` counts the targets. */
  datatype Action = Preflight(node: nat) | Patch(node: nat) | Audit(node: nat, report: Report) | Reboot(node: nat)

  // ------------------------------------------------------------------ preflight

  /** Why a target is not prepared. */
  function Refusal(n: Node): Option<Result> {
    if n.setup.None? then Some(Result(n.name, None, Failed, false, false, NoSetup))
    else
      var s := n.setup.value;
      if s.local then Some(Result(n.name, Some(s.host), Failed, false, false, LocalTarget))
      else if !s.proxmox then Some(Result(n.name, Some(s.host), Failed, false, false, NotProxmox))
      else if !s.valid then Some(Result(n.name, Some(s.host), Failed, false, false, InvalidConfig))
      else if !n.before.healthy then Some(Result(n.name, Some(s.host), Failed, false, false, Unhealthy))
      else if n.before.NeedsReboot() && !n.before.rebootSafe then
        Some(Result(n.name, Some(s.host), Failed, true, false, BlockedBefore))
      else None
  }

  function Refusals(nodes: seq<Node>, n: nat): seq<Result>
    requires n <= |nodes|
  {
    if n == 0 then []
    else Refusals(nodes, n - 1) + (if Refusal(nodes[n - 1]).Some? then [Refusal(nodes[n - 1]).value] else [])
  }

  /** A Proxmox host elsewhere with a valid setup, audited healthy and not kept from a reboot that it needs. */
  predicate Fit(n: Node) {
    && n.setup.Some? && !n.setup.value.local && n.setup.value.proxmox && n.setup.value.valid
    && n.before.healthy && (n.before.rebootRequired == Some(true) ==> n.before.rebootSafe)
  }

  /** The targets that are not, in order. */
  function Unfit(nodes: seq<Node>): seq<Node> {
    if nodes == [] then []
    else Unfit(nodes[..|nodes| - 1]) + (if Fit(nodes[|nodes| - 1]) then [] else [nodes[|nodes| - 1]])
  }

  /** The result of a refused target: failed, nothing done, and for a reason that it has. */
  predicate Explains(r: Result, n: Node) {
    && r.name == n.name && r.status.Failed? && !r.rebooted
    && (r.rebootRequired <==> r.reason.BlockedBefore?)
    && r.host == (if n.setup.Some? then Some(n.setup.value.host) else None)
    && match r.reason
       case NoSetup => n.setup.None?
       case LocalTarget => n.setup.Some? && n.setup.value.local
       case NotProxmox => n.setup.Some? && !n.setup.value.proxmox
       case InvalidConfig => n.setup.Some? && !n.setup.value.valid
       case Unhealthy => !n.before.healthy
       case BlockedBefore => n.before.rebootRequired == Some(true) && !n.before.rebootSafe
       case _ => false
  }

  /** One result for each target that is not fit, in their order, and none for the others. */
  ghost predicate Reports(results: seq<Result>, nodes: seq<Node>) {
    |results| == |Unfit(nodes)| && forall k | 0 <= k < |results| :: Explains(results[k], Unfit(nodes)[k])
  }

  lemma RefusedExactlyWhen(n: Node)
    ensures Refusal(n).Some? <==> !Fit(n)
    ensures Refusal(n).Some? ==> Explains(Refusal(n).value, n)
  {
  }

  lemma OneMoreUnfit(nodes: seq<Node>, n: Node)
    ensures Unfit(nodes + [n]) == Unfit(nodes) + (if Fit(n) then [] else [n])
  {
    hide Fit;
    assert (nodes + [n])[..|nodes|] == nodes;
  }

  lemma {:induction false} RefusalsReport(nodes: seq<Node>, n: nat)
    requires n <= |nodes|
    ensures Reports(Refusals(nodes, n), nodes[..n])
    ensures Unfit(nodes[..n]) == [] <==> forall i | 0 <= i < n :: Fit(nodes[i])
  {
    hide Refusal, Fit, Explains, Unfit;
    if n == 0 {
      assert nodes[..0] == [] && Unfit([]) == [] by { NoneUnfit(); }
    } else {
      var x := nodes[n - 1];
      RefusalsReport(nodes, n - 1);
      RefusedExactlyWhen(x);
      OneMoreUnfit(nodes[..n - 1], x);
      assert nodes[..n] == nodes[..n - 1] + [x];
      if Fit(x) {
        assert Unfit(nodes[..n - 1]) + [] == Unfit(nodes[..n - 1]);
        assert Refusals(nodes, n - 1) + [] == Refusals(nodes, n - 1);
      }
    }
  }

  lemma NoneUnfit()
    ensures Unfit([]) == []
  {
  }

  // --------------------------------------------------------------------- update

  /** Patched, and audited healthy with no reboot pending, after a reboot when one was needed. */
  predicate GoesWell(n: Node, dryRun: bool) {
    && n.patch == 0
    && (!dryRun ==>
          && n.patched.healthy
          && (n.patched.rebootRequired == Some(true) ==>
                n.patched.rebootSafe && n.comesBack && n.rebooted.healthy && n.rebooted.rebootRequired != Some(true)))
  }

  /** The node has been rebooted and is back. */
  predicate GoesThroughReboot(n: Node, dryRun: bool) {
    && !dryRun && n.patch == 0 && n.patched.healthy && n.patched.rebootRequired == Some(true) && n.patched.rebootSafe
    && n.comesBack
  }

  /** The result of one node's turn. */
  function Turn(n: Node, dryRun: bool): Result
    requires n.setup.Some?
  {
    var host := Some(n.setup.value.host);
    if n.patch != 0 then Result(n.name, host, Failed, false, false, PatchFailed)
    else if dryRun then Result(n.name, host, Updated, false, false, DryRun)
    else if !n.patched.healthy then Result(n.name, host, Failed, false, false, AuditFailed)
    else if !n.patched.NeedsReboot() then Result(n.name, host, Updated, false, false, NoReboot)
    else if !n.patched.rebootSafe then Result(n.name, host, Failed, true, false, RebootBlocked)
    else if !n.comesBack then Result(n.name, host, Failed, true, false, RebootFailed)
    else if !n.rebooted.healthy || n.rebooted.NeedsReboot() then
      Result(n.name, host, Failed, true, true, AuditFailedAfterReboot)
    else Result(n.name, host, Updated, true, true, Rebooted)
  }

  lemma TurnMeans(n: Node, dryRun: bool)
    requires n.setup.Some?
    ensures var r := Turn(n, dryRun);
            && r.name == n.name && r.host == Some(n.setup.value.host)
            && (r.status.Updated? <==> GoesWell(n, dryRun)) && (r.status.Failed? <==> !GoesWell(n, dryRun))
            && (r.rebooted <==> GoesThroughReboot(n, dryRun))
            && (r.rebootRequired <==>
                  !dryRun && n.patch == 0 && n.patched.healthy && n.patched.rebootRequired == Some(true))
  {
  }

  /** The last audit of a node. */
  function LastAudit(trace: seq<Action>, node: nat): Option<Report> {
    if trace == [] then None
    else
      var last := trace[|trace| - 1];
      if last.Audit? && last.node == node then Some(last.report) else LastAudit(trace[..|trace| - 1], node)
  }

  /** The audit lets the run go on: healthy, and no reboot known to be pending. */
  predicate Settled(audit: Option<Report>) {
    audit.Some? && audit.value.healthy && !audit.value.NeedsReboot()
  }

  /**
   The discipline: a node is patched only when every earlier one was patched before
   and (unless this is a dry run) last audited healthy with no reboot pending; a node
   is rebooted only after an audit that asks for it and allows it, and never in a dry run.
   */
  ghost predicate Disciplined(trace: seq<Action>, dryRun: bool) {
    && (forall k | 0 <= k < |trace| && trace[k].Patch? ::
          forall j | 0 <= j < trace[k].node ::
            Patch(j) in trace[..k] && (!dryRun ==> Settled(LastAudit(trace[..k], j))))
    && (forall k | 0 <= k < |trace| && trace[k].Patch? :: trace[k] !in trace[..k])
    && (forall k | 0 <= k < |trace| && trace[k].Reboot? ::
          !dryRun && trace[k] !in trace[..k]
          && var audit := LastAudit(trace[..k], trace[k].node);
             audit.Some? && audit.value.healthy && audit.value.NeedsReboot() && audit.value.rebootSafe)
  }

  /** Before the turn of node `i`: every earlier node is done and settled, no later one is touched. */
  ghost predicate Reached(trace: seq<Action>, i: nat, dryRun: bool) {
    && (forall a <- trace :: a.Preflight? || a.node < i)
    && (forall j | 0 <= j < i :: Patch(j) in trace && (!dryRun ==> Settled(LastAudit(trace, j))))
  }

  /** Adding an action that obeys the discipline. */
  lemma OneMoreAction(trace: seq<Action>, a: Action, dryRun: bool)
    requires Disciplined(trace, dryRun)
    requires a.Patch? ==> a !in trace && forall j | 0 <= j < a.node ::
             Patch(j) in trace && (!dryRun ==> Settled(LastAudit(trace, j)))
    requires a.Reboot? ==> !dryRun && a !in trace
                           && LastAudit(trace, a.node).Some? && LastAudit(trace, a.node).value.healthy
                           && LastAudit(trace, a.node).value.NeedsReboot() && LastAudit(trace, a.node).value.rebootSafe
    ensures Disciplined(trace + [a], dryRun)
  {
    hide LastAudit, Settled;
    var longer := trace + [a];
    assert longer[..|trace|] == trace;
    forall k | 0 <= k < |trace|
      ensures longer[k] == trace[k] && longer[..k] == trace[..k]
    {
    }
  }

  lemma AuditOfLonger(trace: seq<Action>, a: Action, node: nat)
    ensures LastAudit(trace + [a], node) == if a.Audit? && a.node == node then Some(a.report)
            else LastAudit(trace, node)
  {
    assert (trace + [a])[..|trace|] == trace;
  }

  /** Actions on node `i` do not disturb the earlier nodes. */
  lemma ReachedStays(trace: seq<Action>, a: Action, i: nat, dryRun: bool)
    requires forall j | 0 <= j < i :: Patch(j) in trace && (!dryRun ==> Settled(LastAudit(trace, j)))
    requires a.node >= i && !a.Preflight?
    ensures forall j | 0 <= j < i :: Patch(j) in trace + [a] && (!dryRun ==> Settled(LastAudit(trace + [a], j)))
  {
    hide Settled;
    forall j | 0 <= j < i
      ensures LastAudit(trace + [a], j) == LastAudit(trace, j)
    {
      AuditOfLonger(trace, a, j);
    }
  }

  /** Node `i` is being worked on: `trace` holds nothing of later nodes. */
  ghost predicate Working(trace: seq<Action>, i: nat, dryRun: bool) {
    && Disciplined(trace, dryRun)
    && (forall a <- trace :: a.Preflight? || a.node <= i)
    && (forall j | 0 <= j < i :: Patch(j) in trace && (!dryRun ==> Settled(LastAudit(trace, j))))
    && Patch(i) in trace
  }

  lemma WorkOn(trace: seq<Action>, a: Action, i: nat, dryRun: bool)
    requires Working(trace, i, dryRun) && a.node == i && (a.Audit? || a.Reboot?)
    requires a.Reboot? ==> !dryRun && a !in trace
                           && LastAudit(trace, i).Some? && LastAudit(trace, i).value.healthy
                           && LastAudit(trace, i).value.NeedsReboot() && LastAudit(trace, i).value.rebootSafe
    ensures Working(trace + [a], i, dryRun)
    ensures LastAudit(trace + [a], i) == if a.Audit? then Some(a.report) else LastAudit(trace, i)
  {
    hide LastAudit, Settled, Disciplined;
    OneMoreAction(trace, a, dryRun);
    ReachedStays(trace, a, i, dryRun);
    AuditOfLonger(trace, a, i);
  }

  lemma StartWork(trace: seq<Action>, i: nat, dryRun: bool)
    requires Disciplined(trace, dryRun) && Reached(trace, i, dryRun)
    ensures Working(trace + [Patch(i)], i, dryRun) && Reboot(i) !in trace + [Patch(i)]
  {
    hide LastAudit, Settled, Disciplined;
    assert Patch(i) !in trace && Reboot(i) !in trace;
    OneMoreAction(trace, Patch(i), dryRun);
    ReachedStays(trace, Patch(i), i, dryRun);
  }

  lemma EndWork(trace: seq<Action>, i: nat, dryRun: bool)
    requires Working(trace, i, dryRun) && (dryRun || Settled(LastAudit(trace, i)))
    ensures Reached(trace, i + 1, dryRun)
  {
    hide LastAudit, Settled, Disciplined;
  }

  // -------------------------------------------------------------------- the run

  function SkippedRest(nodes: seq<Node>, i: nat, name: string): seq<Result>
    requires i <= |nodes| && forall n <- nodes :: n.setup.Some?
    decreases |nodes| - i
  {
    if i == |nodes| then []
    else
      assert nodes[i] in nodes;
      [Result(nodes[i].name, Some(nodes[i].setup.value.host), Skipped, false, false, SkippedAfter(name))]
        + SkippedRest(nodes, i + 1, name)
  }

  method SkipRest(nodes: seq<Node>, i: nat, name: string, results: seq<Result>) returns (r: seq<Result>)
    requires i <= |nodes| && forall n <- nodes :: n.setup.Some?
    ensures r == results + SkippedRest(nodes, i, name)
  {
    r := results;
    for k := i to |nodes|
      invariant r + SkippedRest(nodes, k, name) == results + SkippedRest(nodes, i, name)
    {
      assert nodes[k] in nodes;
      var skipped := Result(nodes[k].name, Some(nodes[k].setup.value.host), Skipped, false, false, SkippedAfter(name));
      Shift(r, skipped, SkippedRest(nodes, k + 1, name));
      r := r + [skipped];
    }
  }

  lemma Shift(a: seq<Result>, b: Result, c: seq<Result>)
    ensures (a + [b]) + c == a + ([b] + c)
  {
  }

  /** One target's turn: patch, audit, and when asked for reboot and audit again. */
  method UpdateNode(n: Node, i: nat, dryRun: bool, before: seq<Action>) returns (result: Result, trace: seq<Action>)
    requires n.setup.Some? && Disciplined(before, dryRun) && Reached(before, i, dryRun)
    ensures result == Turn(n, dryRun)
    ensures Disciplined(trace, dryRun) && before <= trace
    ensures result.status.Updated? ==> Reached(trace, i + 1, dryRun)
    ensures Patch(i) in trace
    ensures forall a <- trace[|before|..] :: !a.Preflight? && a.node == i
    ensures Reboot(i) in trace <==>
            !dryRun && n.patch == 0 && n.patched.healthy && n.patched.NeedsReboot() && n.patched.rebootSafe
  {
    hide Disciplined, Reached, Working, Settled, LastAudit;
    var host := Some(n.setup.value.host);
    StartWork(before, i, dryRun);
    trace := before + [Patch(i)];
    if n.patch != 0 {
      WorkIsDisciplined(trace, i, dryRun);
      return Result(n.name, host, Failed, false, false, PatchFailed), trace;
    }
    if dryRun {
      WorkIsDisciplined(trace, i, dryRun);
      EndWork(trace, i, dryRun);
      return Result(n.name, host, Updated, false, false, DryRun), trace;
    }
    WorkOn(trace, Audit(i, n.patched), i, dryRun);
    trace := trace + [Audit(i, n.patched)];
    WorkIsDisciplined(trace, i, dryRun);
    SettledBy(trace, i);
    if !n.patched.healthy {
      return Result(n.name, host, Failed, false, false, AuditFailed), trace;
    }
    if !n.patched.NeedsReboot() {
      EndWork(trace, i, dryRun);
      return Result(n.name, host, Updated, false, false, NoReboot), trace;
    }
    if !n.patched.rebootSafe {
      return Result(n.name, host, Failed, true, false, RebootBlocked), trace;
    }
    WorkOn(trace, Reboot(i), i, dryRun);
    trace := trace + [Reboot(i)];
    WorkIsDisciplined(trace, i, dryRun);
    if !n.comesBack {
      return Result(n.name, host, Failed, true, false, RebootFailed), trace;
    }
    WorkOn(trace, Audit(i, n.rebooted), i, dryRun);
    trace := trace + [Audit(i, n.rebooted)];
    WorkIsDisciplined(trace, i, dryRun);
    SettledBy(trace, i);
    if !n.rebooted.healthy || n.rebooted.NeedsReboot() {
      return Result(n.name, host, Failed, true, true, AuditFailedAfterReboot), trace;
    }
    EndWork(trace, i, dryRun);
    return Result(n.name, host, Updated, true, true, Rebooted), trace;
  }

  lemma WorkIsDisciplined(trace: seq<Action>, i: nat, dryRun: bool)
    requires Working(trace, i, dryRun)
    ensures Disciplined(trace, dryRun)
  {
  }

  lemma SettledBy(trace: seq<Action>, i: nat)
    ensures Settled(LastAudit(trace, i))
       <==> LastAudit(trace, i).Some? && LastAudit(trace, i).value.healthy && !LastAudit(trace, i).value.NeedsReboot()
  {
    hide LastAudit;
  }

  /**
   The results of a run that was not stopped by the preflight: updated ones, then at most one
   failed, then skipped ones.
   */
  ghost predicate Shaped(results: seq<Result>, nodes: seq<Node>, dryRun: bool, failed: nat)
    requires forall n <- nodes :: n.setup.Some?
  {
    && |results| == |nodes| && failed <= |nodes|
    && (forall i | 0 <= i < |nodes| :: results[i].name == nodes[i].name)
    && (forall i | 0 <= i < failed :: results[i] == TurnOf(nodes, i, dryRun) && results[i].status.Updated?)
    && (failed < |nodes| ==> results[failed] == TurnOf(nodes, failed, dryRun) && results[failed].status.Failed?)
    && (forall i | failed < i < |nodes| ::
        results[i].status.Skipped? && !results[i].rebooted && results[i].reason == SkippedAfter(nodes[failed].name))
  }

  function TurnOf(nodes: seq<Node>, i: nat, dryRun: bool): Result
    requires i < |nodes| && forall n <- nodes :: n.setup.Some?
  {
    assert nodes[i] in nodes;
    Turn(nodes[i], dryRun)
  }

  lemma {:induction false} SkippedShape(nodes: seq<Node>, i: nat, name: string)
    requires i <= |nodes| && forall n <- nodes :: n.setup.Some?
    ensures |SkippedRest(nodes, i, name)| == |nodes| - i
    ensures forall k | 0 <= k < |nodes| - i ::
              var r := SkippedRest(nodes, i, name)[k];
              r.name == nodes[i + k].name && r.status.Skipped? && !r.rebooted && r.reason == SkippedAfter(name)
    decreases |nodes| - i
  {
    if i < |nodes| { SkippedShape(nodes, i + 1, name); }
  }

  lemma {:induction false} NoRefusals(nodes: seq<Node>, n: nat)
    requires n <= |nodes|
    ensures |Refusals(nodes, n)| <= n
    ensures Refusals(nodes, n) == [] <==> forall i | 0 <= i < n :: Refusal(nodes[i]).None?
    ensures forall r <- Refusals(nodes, n) :: r.status.Failed?
  {
    if n > 0 { NoRefusals(nodes, n - 1); }
  }

  /** Audits before the updates. */
  lemma PreflightIsDisciplined(trace: seq<Action>, dryRun: bool)
    requires forall a <- trace :: a.Preflight?
    ensures Disciplined(trace, dryRun) && Reached(trace, 0, dryRun)
  {
    hide LastAudit, Settled;
    assert forall k | 0 <= k < |trace| :: trace[k] in trace;
  }

  /** The results so far are those of updated nodes. */
  ghost predicate AllUpdated(results: seq<Result>, nodes: seq<Node>, i: nat, dryRun: bool)
    requires forall n <- nodes :: n.setup.Some?
  {
    |results| == i <= |nodes| && forall k | 0 <= k < i ::
      results[k] == TurnOf(nodes, k, dryRun) && results[k].status.Updated?
  }

  /** Nothing is done to the nodes behind the failed one. */
  ghost predicate UntouchedBehind(trace: seq<Action>, failed: nat) {
    forall a <- trace :: a.Preflight? || a.node <= failed
  }

  lemma TurnUntouched(before: seq<Action>, trace: seq<Action>, i: nat, dryRun: bool)
    requires Reached(before, i, dryRun) && before <= trace && forall a <- trace[|before|..] ::
             !a.Preflight? && a.node == i
    ensures UntouchedBehind(trace, i)
  {
    assert trace == before + trace[|before|..];
  }

  lemma OneMoreUpdated(results: seq<Result>, nodes: seq<Node>, i: nat, dryRun: bool, r: Result)
    requires forall n <- nodes :: n.setup.Some?
    requires AllUpdated(results, nodes, i, dryRun) && i < |nodes| && r == TurnOf(nodes, i, dryRun) && r.status.Updated?
    ensures AllUpdated(results + [r], nodes, i + 1, dryRun)
  {
    hide Turn;
  }

  lemma TurnOfNames(nodes: seq<Node>, k: nat, dryRun: bool)
    requires k < |nodes| && forall n <- nodes :: n.setup.Some?
    ensures TurnOf(nodes, k, dryRun).name == nodes[k].name && !TurnOf(nodes, k, dryRun).status.Skipped?
  {
    hide Turn;
    assert nodes[k] in nodes;
    TurnNames(nodes[k], dryRun);
  }

  lemma InThree(results: seq<Result>, r: Result, rest: seq<Result>, k: nat)
    requires k < |results| + 1 + |rest|
    ensures var i := |results|;
            (results + [r] + rest)[k] == if k < i then results[k] else if k == i then r else rest[k - i - 1]
  {
  }

  lemma SkippedAt(nodes: seq<Node>, i: nat, name: string, k: nat)
    requires i <= k < |nodes| && (forall n <- nodes :: n.setup.Some?) && |SkippedRest(nodes, i, name)| == |nodes| - i
    ensures var r := SkippedRest(nodes, i, name)[k - i];
            r.name == nodes[k].name && r.status.Skipped? && !r.rebooted && r.reason == SkippedAfter(name)
  {
    hide SkippedRest;
    SkippedShape(nodes, i, name);
    assert nodes[i + (k - i)] == nodes[k];
  }

  lemma FailedShape(results: seq<Result>, nodes: seq<Node>, i: nat, dryRun: bool, r: Result)
    requires forall n <- nodes :: n.setup.Some?
    requires AllUpdated(results, nodes, i, dryRun) && i < |nodes| && r == TurnOf(nodes, i, dryRun) && !r.status.Updated?
    ensures var all := results + [r] + SkippedRest(nodes, i + 1, nodes[i].name);
            Shaped(all, nodes, dryRun, i) && !all[i].status.Updated?
  {
    hide Turn, TurnOf, SkippedRest;
    var name := nodes[i].name;
    var rest := SkippedRest(nodes, i + 1, name);
    var all := results + [r] + rest;
    assert |rest| == |nodes| - (i + 1) by { SkippedShape(nodes, i + 1, name); }
    forall k | 0 <= k < i
      ensures all[k] == TurnOf(nodes, k, dryRun) && all[k].status.Updated? && all[k].name == nodes[k].name
    {
      InThree(results, r, rest, k);
      TurnOfNames(nodes, k, dryRun);
    }
    InThree(results, r, rest, i);
    TurnOfNames(nodes, i, dryRun);
    forall k | i < k < |nodes|
      ensures all[k].name == nodes[k].name && all[k].status.Skipped? && !all[k].rebooted
      ensures all[k].reason == SkippedAfter(name)
    {
      InThree(results, r, rest, k);
      SkippedAt(nodes, i + 1, name, k);
    }
  }

  lemma DoneShape(results: seq<Result>, nodes: seq<Node>, dryRun: bool)
    requires (forall n <- nodes :: n.setup.Some?) && AllUpdated(results, nodes, |nodes|, dryRun)
    ensures Shaped(results, nodes, dryRun, |nodes|) && forall r <- results :: r.status.Updated?
  {
    hide Turn, TurnOf;
    forall k | 0 <= k < |nodes|
      ensures TurnOf(nodes, k, dryRun).name == nodes[k].name
    {
      TurnOfNames(nodes, k, dryRun);
    }
  }

  /** The preflight loop: it counts the prepared targets and reports the refused ones. */
  method CheckTargets(nodes: seq<Node>) returns (prepared: nat, results: seq<Result>, trace: seq<Action>)
    ensures results == Refusals(nodes, |nodes|) && prepared + |results| == |nodes|
    ensures Reports(results, nodes) && (prepared == |nodes| <==> forall n <- nodes :: Fit(n))
    ensures forall a <- trace :: a.Preflight?
  {
    hide Refusal, Fit, Explains;
    RefusalsReport(nodes, |nodes|);
    assert nodes[..|nodes|] == nodes;
    results, trace, prepared := [], [], 0;
    for i := 0 to |nodes|
      invariant results == Refusals(nodes, i) && prepared + |results| == i
      invariant forall a <- trace :: a.Preflight?
    {
      trace := trace + [Preflight(i)];
      var refusal := Refusal(nodes[i]);
      if refusal.Some? {
        results := results + [refusal.value];
      } else {
        prepared := prepared + 1;
      }
    }
  }

  /** The update loop, for targets that all passed the preflight. */
  method UpdateAll(nodes: seq<Node>, dryRun: bool, before: seq<Action>)
    returns (code: int, results: seq<Result>, trace: seq<Action>, ghost failed: nat)
    requires (forall n <- nodes :: n.setup.Some?) && forall a <- before :: a.Preflight?
    ensures Disciplined(trace, dryRun) && Summary(results, nodes, dryRun, failed) && UntouchedBehind(trace, failed)
    ensures forall i | 0 <= i < |nodes| && i <= failed :: Patch(i) in trace
    ensures code == 0 <==> forall r <- results :: r.status.Updated?
    ensures code == 0 || code == 1
  {
    hide Disciplined, Reached, TurnOf, Turn, Shaped, AllUpdated, UntouchedBehind, Summary;
    PreflightIsDisciplined(before, dryRun);
    results, trace := [], before;
    assert AllUpdated([], nodes, 0, dryRun) by { NothingYet(nodes, dryRun); }
    for i := 0 to |nodes|
      invariant AllUpdated(results, nodes, i, dryRun) && Disciplined(trace, dryRun) && Reached(trace, i, dryRun)
      invariant forall j | 0 <= j < i :: Patch(j) in trace
    {
      assert nodes[i] in nodes;
      var result, longer := UpdateNode(nodes[i], i, dryRun, trace);
      TurnUntouched(trace, longer, i, dryRun);
      TurnIs(nodes, i, dryRun);
      trace := longer;
      if !result.status.Updated? {
        FailedShape(results, nodes, i, dryRun, result);
        results := SkipRest(nodes, i + 1, nodes[i].name, results + [result]);
        ShapedSummary(results, nodes, dryRun, i);
        ShapedSize(results, nodes, dryRun, i);
        assert results[i] in results;
        return 1, results, trace, i;
      }
      OneMoreUpdated(results, nodes, i, dryRun, result);
      results := results + [result];
    }
    DoneShape(results, nodes, dryRun);
    ShapedSummary(results, nodes, dryRun, |nodes|);
    ReachedAll(trace, |nodes|, dryRun);
    return 0, results, trace, |nodes|;
  }

  lemma NothingYet(nodes: seq<Node>, dryRun: bool)
    requires forall n <- nodes :: n.setup.Some?
    ensures AllUpdated([], nodes, 0, dryRun)
  {
  }

  lemma TurnIs(nodes: seq<Node>, i: nat, dryRun: bool)
    requires i < |nodes| && forall n <- nodes :: n.setup.Some?
    ensures nodes[i] in nodes && TurnOf(nodes, i, dryRun) == Turn(nodes[i], dryRun)
  {
  }

  lemma ShapedSize(results: seq<Result>, nodes: seq<Node>, dryRun: bool, failed: nat)
    requires (forall n <- nodes :: n.setup.Some?) && Shaped(results, nodes, dryRun, failed)
    ensures |results| == |nodes|
  {
  }

  lemma ReachedAll(trace: seq<Action>, n: nat, dryRun: bool)
    requires Reached(trace, n, dryRun)
    ensures UntouchedBehind(trace, n)
  {
  }

  lemma AllSetUp(nodes: seq<Node>)
    requires Refusals(nodes, |nodes|) == []
    ensures forall n <- nodes :: n.setup.Some?
  {
    NoRefusals(nodes, |nodes|);
    forall i | 0 <= i < |nodes| ensures nodes[i].setup.Some? { assert Refusal(nodes[i]).None?; }
  }

  /**
   The report of a run: up to the first target that does not go well all are updated, that one
   has failed, and the others are skipped because of it.
   */
  ghost predicate Summary(results: seq<Result>, nodes: seq<Node>, dryRun: bool, failed: nat) {
    && |results| == |nodes| && failed <= |nodes|
    && (forall i | 0 <= i < failed :: GoesWell(nodes[i], dryRun))
    && (failed < |nodes| ==> !GoesWell(nodes[failed], dryRun))
    && forall i | 0 <= i < |nodes| ::
         && results[i].name == nodes[i].name
         && results[i].status == (if i < failed then Updated else if i == failed then Failed else Skipped)
         && (results[i].rebooted <==> i <= failed && GoesThroughReboot(nodes[i], dryRun))
         && (i > failed ==> results[i].reason == SkippedAfter(nodes[failed].name))
  }

  lemma ShapedSummary(results: seq<Result>, nodes: seq<Node>, dryRun: bool, failed: nat)
    requires (forall n <- nodes :: n.setup.Some?) && Shaped(results, nodes, dryRun, failed)
    ensures Summary(results, nodes, dryRun, failed)
  {
    hide Turn, GoesWell, GoesThroughReboot;
    forall i | 0 <= i < |nodes|
      ensures nodes[i].setup.Some? && TurnOf(nodes, i, dryRun) == Turn(nodes[i], dryRun)
      ensures var r := TurnOf(nodes, i, dryRun);
              && r.name == nodes[i].name
              && (r.status.Updated? <==> GoesWell(nodes[i], dryRun))
              && (r.status.Failed? <==> !GoesWell(nodes[i], dryRun))
              && (r.rebooted <==> GoesThroughReboot(nodes[i], dryRun))
    {
      assert nodes[i] in nodes;
      TurnMeans(nodes[i], dryRun);
    }
  }

  /**
   All or nothing: unless every target is fit, no system is touched and exactly the others are
   reported. Otherwise the run goes on as long as targets go well, and ends with 0 when all do.
   */
  method RunClusterUpdate(nodes: seq<Node>, dryRun: bool) returns (code: int, results: seq<Result>, trace: seq<Action>)
    ensures Disciplined(trace, dryRun)
    ensures (exists n <- nodes :: !Fit(n)) ==>
              code == 1 && Reports(results, nodes) && forall a <- trace :: a.Preflight?
    ensures (forall n <- nodes :: Fit(n)) ==>
              exists failed ::
                && Summary(results, nodes, dryRun, failed) && UntouchedBehind(trace, failed)
                && forall i | 0 <= i < |nodes| && i <= failed :: Patch(i) in trace
    ensures (exists a <- trace :: !a.Preflight?) ==> forall n <- nodes :: Fit(n)
    ensures code == 0 <==> forall n <- nodes :: Fit(n) && GoesWell(n, dryRun)
    ensures code == 0 || code == 1
  {
    hide Disciplined, Reached, TurnOf, Turn, Shaped, UntouchedBehind, Refusal, Fit, Explains, Summary, GoesWell;
    var prepared, refused, checked := CheckTargets(nodes);
    RefusalsReport(nodes, |nodes|);
    assert nodes[..|nodes|] == nodes;
    NoRefusals(nodes, |nodes|);
    if prepared != |nodes| {
      PreflightIsDisciplined(checked, dryRun);
      var k :| 0 <= k < |nodes| && !Fit(nodes[k]);
      assert nodes[k] in nodes;
      return 1, refused, checked;
    }
    AllSetUp(nodes);
    assert forall n <- nodes :: Fit(n);
    ghost var failed;
    code, results, trace, failed := UpdateAll(nodes, dryRun, checked);
    SummaryMeans(results, nodes, dryRun, failed);
  }

  lemma SummaryMeans(results: seq<Result>, nodes: seq<Node>, dryRun: bool, failed: nat)
    requires Summary(results, nodes, dryRun, failed)
    ensures (forall r <- results :: r.status.Updated?) <==> forall n <- nodes :: GoesWell(n, dryRun)
  {
    hide GoesWell, GoesThroughReboot;
    if failed < |nodes| {
      assert results[failed] in results && nodes[failed] in nodes;
    }
  }

  lemma TurnNames(n: Node, dryRun: bool)
    requires n.setup.Some?
    ensures Turn(n, dryRun).name == n.name && !Turn(n, dryRun).status.Skipped?
  {
  }
}
