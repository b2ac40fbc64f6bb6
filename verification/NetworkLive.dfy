/**
 The live half of a network transition: addresses, policy rules and routing
 tables of one interface, the commands that add to them and the commands of an
 abort that take the additions away again.
 */
module NetworkLive {
  import opened Wrappers
  import opened NetworkStore

  /** A policy rule. `named` says that the listing shows its table by name. */
  datatype Rule = Rule(priority: nat, source: string, table: nat, named: bool)

  datatype Route = Route(table: nat, destination: string, via: string)

  /** What the kernel holds for one IP version; rules are listed by priority. */
  datatype Family = Family(addresses: set<Address>, rules: seq<Rule>, routes: set<Route>)

  datatype Live = Live(four: Family, six: Family)

  const FIRST_TABLE: nat := 20000
  const TABLES_END: nat := 20100

  // ------------------------------------------------------------ table selection

  /** Priorities, and table numbers shown as numbers, of the listed rules. */
  function UsedNumbers(rules: seq<Rule>): set<nat> {
    (set r <- rules :: r.priority) + (set r <- rules | !r.named :: r.table)
  }

  predicate TableEmpty(f: Family, table: nat) {
    forall r <- f.routes :: r.table != table
  }

  predicate Free(f: Family, table: nat) {
    table !in UsedNumbers(f.rules) && TableEmpty(f, table)
  }

  /** Some rule has the number as its priority or shows it as its table, or the table holds a route. */
  ghost predicate Taken(f: Family, table: nat) {
    || (exists r <- f.rules :: r.priority == table || (!r.named && r.table == table))
    || exists r <- f.routes :: r.table == table
  }

  lemma FreeExactlyWhen(f: Family, table: nat)
    ensures Free(f, table) <==> !Taken(f, table)
  {
    if r :| r in f.rules && r.priority == table { assert r.priority in UsedNumbers(f.rules); }
    if r :| r in f.rules && !r.named && r.table == table { assert r.table in UsedNumbers(f.rules); }
  }

  /** The first table of the range that no rule mentions and that holds no route. */
  method SelectPolicyTable(f: Family) returns (table: Option<nat>)
    ensures table.Some? ==>
              FIRST_TABLE <= table.value < TABLES_END && Free(f, table.value)
              && (forall r <- f.rules :: r.priority != table.value && (r.named || r.table != table.value))
              && (forall r <- f.routes :: r.table != table.value)
              && (forall t: nat | FIRST_TABLE <= t < table.value :: !Free(f, t) && Taken(f, t))
    ensures table.None? ==> forall t: nat | FIRST_TABLE <= t < TABLES_END :: !Free(f, t) && Taken(f, t)
  {
    var used: set<nat> := {};
    for i := 0 to |f.rules|
      invariant used == UsedNumbers(f.rules[..i])
    {
      var rule := f.rules[i];
      OneMoreUsed(f.rules, i);
      used := used + {rule.priority};
      if !rule.named {
        used := used + {rule.table};
      }
    }
    assert f.rules[..|f.rules|] == f.rules;
    for t := FIRST_TABLE to TABLES_END
      invariant forall u: nat | FIRST_TABLE <= u < t :: !Free(f, u)
    {
      if t in used {
        continue;
      }
      if TableEmpty(f, t) {
        assert forall r <- f.rules :: r.priority in UsedNumbers(f.rules);
        forall u: nat | FIRST_TABLE <= u <= t ensures Free(f, u) <==> !Taken(f, u) { FreeExactlyWhen(f, u); }
        return Some(t);
      }
    }
    forall u: nat | FIRST_TABLE <= u < TABLES_END ensures Free(f, u) <==> !Taken(f, u) { FreeExactlyWhen(f, u); }
    return None;
  }

  lemma OneMoreUsed(rules: seq<Rule>, i: nat)
    requires i < |rules|
    ensures UsedNumbers(rules[..i + 1])
         == UsedNumbers(rules[..i]) + {rules[i].priority} + (if rules[i].named then {} else {rules[i].table})
  {
    assert rules[..i + 1] == rules[..i] + [rules[i]];
  }

  /** The addresses to add: those of the requested ones whose IP is not active, whatever their prefix. */
  predicate MustAdd(f: Family, a: Address) {
    forall b <- f.addresses :: b.ip != a.ip
  }

  // -------------------------------------------------------------------- commands

  /** What a transition does to one family: the requested address, whether it is added, and the policy table. */
  datatype Goal = Goal(address: Option<Address>, added: bool, gateway: Option<string>, table: Option<nat>)
  {
    /** As prepare fixes it on the family it finds. */
    ghost predicate Chosen(f: Family) {
      && (added <==> address.Some? && MustAdd(f, address.value))
      && (gateway.Some? <==> table.Some?)
      && (table.Some? ==> FIRST_TABLE <= table.value < TABLES_END && Free(f, table.value))
      // The settings were validated: a gateway comes with an address of its version.
      && (gateway.Some? ==> address.Some?)
    }
  }

  datatype Command = AddAddress | ReplaceNetwork | ReplaceDefault | AddRule | DeleteRule | FlushTable | DeleteAddress

  function TheRule(g: Goal): Rule
    requires g.table.Some? && g.address.Some?
  {
    Rule(g.table.value, g.address.value.ip, g.table.value, false)
  }

  /** The kernel keeps rules by priority. */
  function InsertRule(rules: seq<Rule>, rule: Rule): seq<Rule> {
    if rules == [] || rule.priority < rules[0].priority then [rule] + rules
    else [rules[0]] + InsertRule(rules[1..], rule)
  }

  /** The first rule with this priority, source and table goes. */
  function DropRule(rules: seq<Rule>, rule: Rule): seq<Rule> {
    if rules == [] then []
    else if rules[0].priority == rule.priority && rules[0].source == rule.source && rules[0].table == rule.table then
      rules[1..]
    else [rules[0]] + DropRule(rules[1..], rule)
  }

  function Replace(routes: set<Route>, route: Route): set<Route> {
    (set r <- routes | r.table != route.table || r.destination != route.destination) + {route}
  }

  function Run(f: Family, g: Goal, c: Command): Family {
    match c
    case AddAddress => if g.address.Some? then f.(addresses := f.addresses + {g.address.value}) else f
    case DeleteAddress => if g.address.Some? then f.(addresses := f.addresses - {g.address.value}) else f
    case ReplaceNetwork =>
      if g.address.Some? && g.table.Some?
      then f.(routes := Replace(f.routes, Route(g.table.value, g.address.value.network, ""))) else f
    case ReplaceDefault =>
      if g.table.Some? && g.gateway.Some?
      then f.(routes := Replace(f.routes, Route(g.table.value, "default", g.gateway.value))) else f
    case AddRule => if g.address.Some? && g.table.Some? then f.(rules := InsertRule(f.rules, TheRule(g))) else f
    case DeleteRule => if g.address.Some? && g.table.Some? then f.(rules := DropRule(f.rules, TheRule(g))) else f
    case FlushTable => if g.table.Some? then f.(routes := set r <- f.routes | r.table != g.table.value) else f
  }

  // ------------------------------------------------------------------- one family

  function OtherRoutes(f: Family, g: Goal): set<Route> {
    if g.table.Some? then set r <- f.routes | r.table != g.table.value else f.routes
  }

  ghost predicate AddressesUnderway(f: Family, base: Family, g: Goal) {
    f.addresses == base.addresses
    || (g.added && g.address.Some? && f.addresses == base.addresses + {g.address.value})
  }

  ghost predicate RulesUnderway(f: Family, base: Family, g: Goal) {
    f.rules == base.rules
    || (g.table.Some? && g.address.Some? && f.rules == InsertRule(base.rules, TheRule(g)))
  }

  /** Between prepare and the end of an abort: only the recorded additions may be there. */
  ghost predicate Underway(f: Family, base: Family, g: Goal) {
    AddressesUnderway(f, base, g) && RulesUnderway(f, base, g) && OtherRoutes(f, g) == base.routes
  }

  lemma {:induction false} DropInserted(rules: seq<Rule>, rule: Rule)
    requires forall r <- rules :: r.priority != rule.priority
    ensures DropRule(InsertRule(rules, rule), rule) == rules && DropRule(rules, rule) == rules
  {
    if rules == [] {
      assert [rule][1..] == [];
    } else {
      assert rules[0] in rules && forall r <- rules[1..] :: r in rules;
      DropInserted(rules[1..], rule);
      assert ([rule] + rules)[1..] == rules;
      assert ([rules[0]] + InsertRule(rules[1..], rule))[1..] == InsertRule(rules[1..], rule);
      assert [rules[0]] + rules[1..] == rules;
    }
  }

  lemma FreeRules(f: Family, table: nat)
    requires Free(f, table)
    ensures forall r <- f.rules :: r.priority != table
  {
    assert forall r <- f.rules :: r.priority in UsedNumbers(f.rules);
  }

  lemma NotActive(f: Family, a: Address)
    requires MustAdd(f, a)
    ensures a !in f.addresses
  {
  }

  /** Commands run with the additions they find: an address or rule is added only where it is missing. */
  ghost predicate Applies(f: Family, base: Family, g: Goal, c: Command) {
    && (c.AddAddress? ==> g.added)
    && (c.DeleteAddress? ==> g.added)
    && (c.AddRule? ==> f.rules == base.rules)
  }

  lemma RulesStayUnderway(f: Family, base: Family, g: Goal, c: Command)
    requires g.Chosen(base) && RulesUnderway(f, base, g) && Applies(f, base, g, c)
    ensures RulesUnderway(Run(f, g, c), base, g)
  {
    hide Free, MustAdd, Replace;
    if g.table.Some? {
      FreeRules(base, g.table.value);
      DropInserted(base.rules, TheRule(g));
    }
  }

  lemma AddressesStayUnderway(f: Family, base: Family, g: Goal, c: Command)
    requires g.Chosen(base) && AddressesUnderway(f, base, g) && Applies(f, base, g, c)
    ensures AddressesUnderway(Run(f, g, c), base, g)
  {
    hide Free, InsertRule, DropRule, Replace;
    if g.added { NotActive(base, g.address.value); }
  }

  lemma RoutesStayUnderway(f: Family, base: Family, g: Goal, c: Command)
    requires g.Chosen(base) && OtherRoutes(f, g) == base.routes
    ensures OtherRoutes(Run(f, g, c), g) == base.routes
  {
    hide InsertRule, DropRule, MustAdd, Free;
    if g.table.Some? {
      OthersOfReplace(f.routes, Route(g.table.value, if g.address.Some? then g.address.value.network else "", ""));
      OthersOfReplace(f.routes, Route(g.table.value, "default", if g.gateway.Some? then g.gateway.value else ""));
    }
  }

  lemma OthersOfReplace(routes: set<Route>, route: Route)
    ensures (set r <- Replace(routes, route) | r.table != route.table) == set r <- routes | r.table != route.table
  {
  }

  lemma RunStaysUnderway(f: Family, base: Family, g: Goal, c: Command)
    requires g.Chosen(base) && Underway(f, base, g) && Applies(f, base, g, c)
    ensures Underway(Run(f, g, c), base, g)
  {
    hide *;
    UnderwayParts(f, base, g);
    RulesStayUnderway(f, base, g, c);
    AddressesStayUnderway(f, base, g, c);
    RoutesStayUnderway(f, base, g, c);
    UnderwayParts(Run(f, g, c), base, g);
  }

  lemma UnderwayParts(f: Family, base: Family, g: Goal)
    ensures Underway(f, base, g) <==>
            AddressesUnderway(f, base, g) && RulesUnderway(f, base, g) && OtherRoutes(f, g) == base.routes
  {
  }

  lemma BaseUnderway(base: Family, g: Goal)
    requires g.Chosen(base)
    ensures Underway(base, base, g)
  {
  }

  /** The undo commands of one family: the table's if there is one, the address's if it was added. */
  function Undone(f: Family, g: Goal, refused: set<Command>): Family {
    AddressUndone(TableUndone(f, g, refused), g, refused)
  }

  /** The command would change something. */
  predicate HasEffect(f: Family, g: Goal, c: Command) {
    match c
    case DeleteRule => g.table.Some? && Run(f, g, DeleteRule).rules != f.rules
    case FlushTable => g.table.Some? && Run(f, g, FlushTable).routes != f.routes
    case DeleteAddress => g.added && Run(f, g, DeleteAddress).addresses != f.addresses
    case _ => false
  }

  lemma UndoneRules(f: Family, base: Family, g: Goal, refused: set<Command>)
    requires g.Chosen(base) && RulesUnderway(f, base, g)
    ensures Undone(f, g, refused).rules == base.rules <==> !(DeleteRule in refused && HasEffect(f, g, DeleteRule))
  {
    hide MustAdd, UsedNumbers;
    if g.table.Some? {
      FreeRules(base, g.table.value);
      DropInserted(base.rules, TheRule(g));
    }
  }

  lemma UndoneAddresses(f: Family, base: Family, g: Goal, refused: set<Command>)
    requires g.Chosen(base) && AddressesUnderway(f, base, g)
    ensures Undone(f, g, refused).addresses == base.addresses <==>
            !(DeleteAddress in refused && HasEffect(f, g, DeleteAddress))
  {
    hide InsertRule, DropRule, Free;
    if g.added { NotActive(base, g.address.value); }
  }

  lemma UndoneRoutes(f: Family, base: Family, g: Goal, refused: set<Command>)
    requires g.Chosen(base) && OtherRoutes(f, g) == base.routes
    ensures Undone(f, g, refused).routes == base.routes <==> !(FlushTable in refused && HasEffect(f, g, FlushTable))
  {
    hide InsertRule, DropRule, MustAdd, UsedNumbers;
  }

  lemma NoOtherEffects(f: Family, g: Goal, refused: set<Command>)
    ensures (forall c <- refused :: !HasEffect(f, g, c))
       <==> !(DeleteRule in refused && HasEffect(f, g, DeleteRule))
            && !(FlushTable in refused && HasEffect(f, g, FlushTable))
            && !(DeleteAddress in refused && HasEffect(f, g, DeleteAddress))
  {
  }

  /**
   From anywhere underway, undoing brings the family back exactly, unless a command
   that had something to remove is refused: failures of these commands are ignored.
   */
  lemma UndoneExactlyWhen(f: Family, base: Family, g: Goal, refused: set<Command>)
    requires g.Chosen(base) && Underway(f, base, g)
    ensures Undone(f, g, refused) == base <==> forall c <- refused :: !HasEffect(f, g, c)
  {
    hide *;
    UnderwayParts(f, base, g);
    UndoneRules(f, base, g, refused);
    UndoneAddresses(f, base, g, refused);
    UndoneRoutes(f, base, g, refused);
    NoOtherEffects(f, g, refused);
  }

  /** Undoing removes nothing but the recorded rule, the routes of the table and the recorded address. */
  lemma UndoneSparesTheRest(f: Family, g: Goal, refused: set<Command>)
    ensures var after := Undone(f, g, refused);
            && after.addresses <= f.addresses && after.routes <= f.routes
            && (forall a <- f.addresses - after.addresses :: g.added && g.address == Some(a))
            && (forall r <- f.routes - after.routes :: g.table == Some(r.table))
            && (forall r <- f.rules | g.table != Some(r.priority) :: r in after.rules)
            && (forall r <- after.rules :: r in f.rules)
  {
    if g.address.Some? && g.table.Some? { DropSpares(f.rules, TheRule(g)); }
  }

  lemma {:induction false} DropSpares(rules: seq<Rule>, rule: Rule)
    ensures forall r <- rules | r.priority != rule.priority :: r in DropRule(rules, rule)
    ensures forall r <- DropRule(rules, rule) :: r in rules
  {
    if rules != [] { DropSpares(rules[1..], rule); }
  }

  // ---------------------------------------------------------------- both families

  datatype Version = Four | Six

  datatype Goals = Goals(four: Goal, six: Goal)
  {
    function Of(v: Version): Goal { if v.Four? then four else six }

    ghost predicate Chosen(live: Live) { four.Chosen(live.four) && six.Chosen(live.six) }
  }

  datatype LiveStep = LiveStep(version: Version, command: Command)

  function Take(live: Live, goals: Goals, step: LiveStep): Live {
    match step.version
    case Four => live.(four := Run(live.four, goals.four, step.command))
    case Six => live.(six := Run(live.six, goals.six, step.command))
  }

  function AddressSteps(v: Version, g: Goal): seq<LiveStep> {
    if g.added then [LiveStep(v, AddAddress)] else []
  }

  function PolicySteps(v: Version, g: Goal): seq<LiveStep> {
    if g.table.Some? && g.address.Some?
    then [LiveStep(v, ReplaceNetwork), LiveStep(v, ReplaceDefault), LiveStep(v, AddRule)] else []
  }

  /** All addresses first, then the routes and the rule of each family with a gateway. */
  function LiveSteps(goals: Goals): seq<LiveStep> {
    AddressSteps(Four, goals.four) + AddressSteps(Six, goals.six) + PolicySteps(Four, goals.four)
      + PolicySteps(Six, goals.six)
  }

  function UndoTable(v: Version, g: Goal): seq<LiveStep> {
    if g.table.Some? then [LiveStep(v, DeleteRule), LiveStep(v, FlushTable)] else []
  }

  function UndoAddress(v: Version, g: Goal): seq<LiveStep> {
    if g.added then [LiveStep(v, DeleteAddress)] else []
  }

  function LiveUndo(goals: Goals): seq<LiveStep> {
    UndoTable(Four, goals.four) + UndoTable(Six, goals.six) + UndoAddress(Four, goals.four)
      + UndoAddress(Six, goals.six)
  }

  /** The first `k` commands, of which the refused ones change nothing. */
  function RunLive(live: Live, goals: Goals, steps: seq<LiveStep>, k: nat, refused: set<LiveStep>): Live
    requires k <= |steps|
  {
    if k == 0 then live
    else
      var before := RunLive(live, goals, steps, k - 1, refused);
      if steps[k - 1] in refused then before else Take(before, goals, steps[k - 1])
  }

  ghost predicate LiveUnderway(live: Live, base: Live, goals: Goals) {
    Underway(live.four, base.four, goals.four) && Underway(live.six, base.six, goals.six)
  }

  /** The commands of an abort apply wherever it is interrupted before. */
  ghost predicate Harmless(steps: seq<LiveStep>, goals: Goals) {
    forall s <- steps ::
      !s.command.AddRule? && (s.command.AddAddress? || s.command.DeleteAddress? ==> goals.Of(s.version).added)
  }

  lemma UndoIsHarmless(goals: Goals)
    ensures Harmless(LiveUndo(goals), goals)
  {
  }

  lemma {:induction false} HarmlessStaysUnderway(
    live: Live, base: Live, goals: Goals, steps: seq<LiveStep>, k: nat, refused: set<LiveStep>)
    requires goals.Chosen(base) && LiveUnderway(live, base, goals) && Harmless(steps, goals) && k <= |steps|
    ensures LiveUnderway(RunLive(live, goals, steps, k, refused), base, goals)
  {
    hide Underway, Run, Goal.Chosen;
    if k > 0 {
      HarmlessStaysUnderway(live, base, goals, steps, k - 1, refused);
      var before, step := RunLive(live, goals, steps, k - 1, refused), steps[k - 1];
      assert step in steps;
      var f, b, g := if step.version.Four? then before.four else before.six,
                     if step.version.Four? then base.four else base.six, goals.Of(step.version);
      RunStaysUnderway(f, b, g, step.command);
    }
  }

  /** No step before `k` adds the rule of this version. */
  ghost predicate NoRuleYet(steps: seq<LiveStep>, k: nat, v: Version)
    requires k <= |steps|
  {
    forall i | 0 <= i < k :: steps[i] != LiveStep(v, AddRule)
  }

  /** Only adding the rule changes the rules, as long as nothing is removed. */
  ghost predicate OnlyAdds(steps: seq<LiveStep>, goals: Goals) {
    forall s <- steps ::
      !s.command.DeleteRule? && (s.command.AddAddress? || s.command.DeleteAddress? ==> goals.Of(s.version).added)
  }

  ghost predicate RuleOnce(steps: seq<LiveStep>) {
    forall i, j | 0 <= i < j < |steps| :: steps[i].command.AddRule? ==> steps[i] != steps[j]
  }

  function FamilyOf(live: Live, v: Version): Family { if v.Four? then live.four else live.six }

  lemma {:induction false} RulesUntouched(live: Live, goals: Goals, steps: seq<LiveStep>, k: nat, v: Version)
    requires k <= |steps| && OnlyAdds(steps, goals) && NoRuleYet(steps, k, v)
    ensures FamilyOf(RunLive(live, goals, steps, k, {}), v).rules == FamilyOf(live, v).rules
  {
    if k > 0 {
      RulesUntouched(live, goals, steps, k - 1, v);
      assert steps[k - 1] in steps;
    }
  }

  /** From every prefix of the live steps the additions are the recorded ones. */
  lemma {:induction false} PrefixIsUnderway(base: Live, goals: Goals, steps: seq<LiveStep>, k: nat)
    requires goals.Chosen(base) && OnlyAdds(steps, goals) && RuleOnce(steps) && k <= |steps|
    ensures LiveUnderway(RunLive(base, goals, steps, k, {}), base, goals)
  {
    hide Underway, Run, Goal.Chosen;
    if k == 0 {
      BaseUnderway(base.four, goals.four);
      BaseUnderway(base.six, goals.six);
    } else {
      PrefixIsUnderway(base, goals, steps, k - 1);
      var before, step := RunLive(base, goals, steps, k - 1, {}), steps[k - 1];
      assert step in steps;
      if step.command.AddRule? { RulesUntouched(base, goals, steps, k - 1, step.version); }
      RunStaysUnderway(FamilyOf(before, step.version), FamilyOf(base, step.version), goals.Of(step.version),
                       step.command);
    }
  }

  lemma LiveStepsOnlyAdd(goals: Goals)
    ensures OnlyAdds(LiveSteps(goals), goals) && RuleOnce(LiveSteps(goals))
  {
    hide Goal.Chosen;
  }

  lemma StartedIsUnderway(base: Live, goals: Goals, k: nat)
    requires goals.Chosen(base) && k <= |LiveSteps(goals)|
    ensures LiveUnderway(RunLive(base, goals, LiveSteps(goals), k, {}), base, goals)
  {
    hide *;
    LiveStepsOnlyAdd(goals);
    PrefixIsUnderway(base, goals, LiveSteps(goals), k);
  }

  // -------------------------------------------------------------- what is added

  /** The commands for one family among the first `k` steps. */
  function CommandsOf(steps: seq<LiveStep>, k: nat, v: Version): seq<Command>
    requires k <= |steps|
  {
    if k == 0 then []
    else CommandsOf(steps, k - 1, v) + (if steps[k - 1].version == v then [steps[k - 1].command] else [])
  }

  function RunEach(f: Family, g: Goal, commands: seq<Command>): Family {
    if commands == [] then f else Run(RunEach(f, g, commands[..|commands| - 1]), g, commands[|commands| - 1])
  }

  lemma {:induction false} FamilyRuns(live: Live, goals: Goals, steps: seq<LiveStep>, k: nat, v: Version)
    requires k <= |steps|
    ensures FamilyOf(RunLive(live, goals, steps, k, {}), v)
         == RunEach(FamilyOf(live, v), goals.Of(v), CommandsOf(steps, k, v))
  {
    hide Run;
    if k > 0 {
      FamilyRuns(live, goals, steps, k - 1, v);
      var before, c := CommandsOf(steps, k - 1, v), steps[k - 1].command;
      assert (before + [c])[..|before|] == before;
      assert before + [] == before;
    }
  }

  lemma {:induction false} CommandsConcat(a: seq<LiveStep>, b: seq<LiveStep>, k: nat, v: Version)
    requires k <= |a| + |b|
    ensures CommandsOf(a + b, k, v)
         == if k <= |a| then CommandsOf(a, k, v) else CommandsOf(a, |a|, v) + CommandsOf(b, k - |a|, v)
  {
    if k > 0 {
      CommandsConcat(a, b, k - 1, v);
      assert (a + b)[k - 1] == if k <= |a| then a[k - 1] else b[k - 1 - |a|];
      if k == |a| + 1 { assert CommandsOf(a, |a|, v) + [] == CommandsOf(a, |a|, v); }
    }
  }

  function Least(a: nat, b: nat): nat { if a <= b then a else b }

  function AddressPlan(g: Goal): seq<Command> { if g.added then [AddAddress] else [] }

  function PolicyPlan(g: Goal): seq<Command> {
    if g.table.Some? && g.address.Some? then [ReplaceNetwork, ReplaceDefault, AddRule] else []
  }

  /** The address, then the routes, and only then the rule that leads to them. */
  function Plan(g: Goal): seq<Command> { AddressPlan(g) + PolicyPlan(g) }

  lemma AddressCommands(g: Goal, u: Version, k: nat, v: Version)
    requires k <= |AddressSteps(u, g)|
    ensures |AddressSteps(u, g)| == |AddressPlan(g)|
    ensures CommandsOf(AddressSteps(u, g), k, v) == if u == v then AddressPlan(g)[..k] else []
  {
    assert CommandsOf(AddressSteps(u, g), 0, v) == [];
  }

  lemma PolicyCommands(g: Goal, u: Version, k: nat, v: Version)
    requires k <= |PolicySteps(u, g)|
    ensures |PolicySteps(u, g)| == |PolicyPlan(g)|
    ensures CommandsOf(PolicySteps(u, g), k, v) == if u == v then PolicyPlan(g)[..k] else []
  {
    var steps, all := PolicySteps(u, g), PolicyPlan(g);
    assert CommandsOf(steps, 0, v) == [];
    if k > 0 { assert CommandsOf(steps, 1, v) == if u == v then all[..1] else []; }
    if k > 1 { assert CommandsOf(steps, 2, v) == if u == v then all[..2] else []; }
  }

  lemma PrefixOfBoth(a: seq<Command>, b: seq<Command>, k: nat, m: nat)
    requires k <= |a| && m <= |b| && (m > 0 ==> k == |a|)
    ensures a[..k] + b[..m] <= a + b && (k == |a| && m == |b| ==> a[..k] + b[..m] == a + b)
  {
    if m > 0 { assert a[..k] == a; }
  }

  lemma FourAndSix(a: seq<Command>, b: seq<Command>)
    ensures a + [] + b + [] == a + b && [] + a + [] + b == a + b
  {
  }

  lemma LeastMeans(a: nat, b: nat)
    ensures Least(a, b) == if a <= b then a else b
  {
  }

  /** What one family has been told of its own plan. */
  lemma PlanPart(g: Goal, u: Version, k: nat, m: nat, v: Version)
    requires k <= |AddressSteps(u, g)| && m <= |PolicySteps(u, g)| && (m > 0 ==> k == |AddressSteps(u, g)|)
    ensures u != v ==> CommandsOf(AddressSteps(u, g), k, v) == CommandsOf(PolicySteps(u, g), m, v) == []
    ensures u == v ==>
              var told := CommandsOf(AddressSteps(u, g), k, v) + CommandsOf(PolicySteps(u, g), m, v);
              && told <= Plan(g)
              && (k == |AddressSteps(u, g)| && m == |PolicySteps(u, g)| ==> told == Plan(g))
  {
    hide CommandsOf, AddressSteps, PolicySteps, AddressPlan, PolicyPlan;
    AddressCommands(g, u, k, v);
    PolicyCommands(g, u, m, v);
    PrefixOfBoth(AddressPlan(g), PolicyPlan(g), k, m);
  }

  /** The steps of each family follow its plan. */
  lemma StepsFollowPlan(goals: Goals, k: nat, v: Version)
    requires k <= |LiveSteps(goals)|
    ensures CommandsOf(LiveSteps(goals), k, v) <= Plan(goals.Of(v))
    ensures k == |LiveSteps(goals)| ==> CommandsOf(LiveSteps(goals), k, v) == Plan(goals.Of(v))
  {
    hide CommandsOf, AddressSteps, PolicySteps, Plan, Least;
    var a4, a6 := AddressSteps(Four, goals.four), AddressSteps(Six, goals.six);
    var p4, p6 := PolicySteps(Four, goals.four), PolicySteps(Six, goals.six);
    LeastMeans(k, |a4|);
    var k4 := Least(k, |a4|);
    LeastMeans(k - k4, |a6|);
    var k6 := Least(k - k4, |a6|);
    LeastMeans(k - k4 - k6, |p4|);
    var m4 := Least(k - k4 - k6, |p4|);
    var m6 := k - k4 - k6 - m4;
    FourParts(a4, a6, p4, p6, k, v);
    PlanPart(goals.four, Four, k4, m4, v);
    PlanPart(goals.six, Six, k6, m6, v);
    if v == Four {
      FourAndSix(CommandsOf(a4, k4, v), CommandsOf(p4, m4, v));
    } else {
      FourAndSix(CommandsOf(a6, k6, v), CommandsOf(p6, m6, v));
    }
  }

  lemma FourParts(
    a: seq<LiveStep>, b: seq<LiveStep>, c: seq<LiveStep>, d: seq<LiveStep>, k: nat, v: Version)
    requires k <= |a| + |b| + |c| + |d|
    ensures var i := Least(k, |a|);
            var j := Least(k - i, |b|);
            var m := Least(k - i - j, |c|);
            CommandsOf(a + b + c + d, k, v)
            == CommandsOf(a, i, v) + CommandsOf(b, j, v) + CommandsOf(c, m, v) + CommandsOf(d, k - i - j - m, v)
  {
    hide CommandsOf;
    NoCommands(b, v);
    NoCommands(c, v);
    NoCommands(d, v);
    CommandsConcat(a + b + c, d, k, v);
    CommandsConcat(a + b, c, Least(k, |a + b + c|), v);
    CommandsConcat(a, b, Least(k, |a + b|), v);
  }

  lemma NoCommands(steps: seq<LiveStep>, v: Version)
    ensures CommandsOf(steps, 0, v) == []
  {
  }

  /**
   What a completed prepare leaves of the family it found: the requested address is active, and
   with a gateway there is one more rule, from the address to the table, at its place by
   priority, and in the table just the connected network and the default route.
   */
  ghost predicate Started(
    f: Family, base: Family, address: Option<Address>, gateway: Option<string>, table: Option<nat>)
  {
    && f.addresses == base.addresses
         + (if address.Some? && (forall b <- base.addresses :: b.ip != address.value.ip) then {address.value} else {})
    && (gateway.Some? <==> table.Some?)
    && (gateway.None? ==> f.rules == base.rules && f.routes == base.routes)
    && (gateway.Some? ==>
          && address.Some? && Leads(base.rules, f.rules, address.value, table.value)
          && f.routes == base.routes + TheRoutes(address.value, gateway.value, table.value)
          && 20000 <= table.value < 20100 && !Taken(base, table.value))
  }

  /** One more rule from the address to the table, behind those of smaller priority and before those of greater. */
  ghost predicate Leads(base: seq<Rule>, rules: seq<Rule>, address: Address, table: nat) {
    exists k: nat | k <= |base| ::
      && rules == base[..k] + [Rule(table, address.ip, table, false)] + base[k..]
      && (forall i | 0 <= i < k :: base[i].priority < table) && (k < |base| ==> table < base[k].priority)
  }

  /** The default route takes the place of a network that is all there is. */
  function TheRoutes(address: Address, gateway: string, table: nat): set<Route> {
    {Route(table, "default", gateway)}
    + (if address.network == "default" then {} else {Route(table, address.network, "")})
  }

  /** On the way: no rule leads to a table that is not filled, and no route is there before its address is active. */
  ghost predicate Guarded(
    f: Family, base: Family, address: Option<Address>, gateway: Option<string>, table: Option<nat>)
  {
    && (f.rules != base.rules ==>
          address.Some? && gateway.Some? && table.Some?
          && f.routes == base.routes + TheRoutes(address.value, gateway.value, table.value))
    && (f.routes != base.routes ==> address.Some? && exists a <- f.addresses :: a.ip == address.value.ip)
  }

  /** Where the kernel puts a rule of this priority. */
  function PlaceOf(rules: seq<Rule>, priority: nat): (k: nat)
    ensures k <= |rules|
    ensures forall i | 0 <= i < k :: rules[i].priority <= priority
    ensures k < |rules| ==> priority < rules[k].priority
  {
    if rules == [] || priority < rules[0].priority then 0 else 1 + PlaceOf(rules[1..], priority)
  }

  lemma {:induction false} InsertedAt(rules: seq<Rule>, rule: Rule)
    ensures var k := PlaceOf(rules, rule.priority); InsertRule(rules, rule) == rules[..k] + [rule] + rules[k..]
  {
    if rules == [] || rule.priority < rules[0].priority {
      assert [rule] + rules == rules[..0] + [rule] + rules[0..];
    } else {
      InsertedAt(rules[1..], rule);
      var k := PlaceOf(rules[1..], rule.priority);
      assert [rules[0]] + (rules[1..][..k] + [rule] + rules[1..][k..]) == rules[..k + 1] + [rule] + rules[k + 1..];
    }
  }

  lemma RuleLeads(base: seq<Rule>, address: Address, table: nat)
    requires forall r <- base :: r.priority != table
    ensures Leads(base, InsertRule(base, Rule(table, address.ip, table, false)), address, table)
  {
    hide InsertRule;
    InsertedAt(base, Rule(table, address.ip, table, false));
    var k := PlaceOf(base, table);
    forall i | 0 <= i < k ensures base[i].priority < table { assert base[i] in base; }
  }

  lemma RunOneMore(f: Family, g: Goal, commands: seq<Command>, c: Command)
    ensures RunEach(f, g, commands + [c]) == Run(RunEach(f, g, commands), g, c)
  {
    hide Run;
    assert (commands + [c])[..|commands|] == commands;
  }

  lemma RoutesFilled(routes: set<Route>, address: Address, gateway: string, table: nat)
    requires forall r <- routes :: r.table != table
    ensures Replace(Replace(routes, Route(table, address.network, "")), Route(table, "default", gateway))
         == routes + TheRoutes(address, gateway, table)
  {
  }

  lemma AddedIs(base: Family, g: Goal)
    requires g.Chosen(base)
    ensures RunEach(base, g, []) == base
    ensures var f := RunEach(base, g, AddressPlan(g));
            && f.rules == base.rules && f.routes == base.routes
            && f.addresses == base.addresses + (if g.added then {g.address.value} else {})
            && (g.address.Some? ==> exists a <- f.addresses :: a.ip == g.address.value.ip)
  {
    hide Free, InsertRule, DropRule, Replace;
    if g.added {
      RunOneMore(base, g, [], AddAddress);
      assert [] + [AddAddress] == [AddAddress];
      assert g.address.value in RunEach(base, g, [AddAddress]).addresses;
    }
  }

  lemma PolicyIs(f: Family, g: Goal)
    requires g.table.Some? && g.address.Some? && g.gateway.Some?
    ensures var t, a := g.table.value, g.address.value;
            var one := f.(routes := Replace(f.routes, Route(t, a.network, "")));
            var two := one.(routes := Replace(one.routes, Route(t, "default", g.gateway.value)));
            && Run(f, g, ReplaceNetwork) == one && Run(one, g, ReplaceDefault) == two
            && Run(two, g, AddRule) == two.(rules := InsertRule(f.rules, TheRule(g)))
  {
    hide Replace, InsertRule;
  }

  lemma PrefixOf(added: seq<Command>, commands: seq<Command>)
    requires |added| <= 1 && commands <= added + [ReplaceNetwork] + [ReplaceDefault] + [AddRule]
    ensures || commands == [] || commands == added || commands == added + [ReplaceNetwork]
            || commands == added + [ReplaceNetwork] + [ReplaceDefault]
            || commands == added + [ReplaceNetwork] + [ReplaceDefault] + [AddRule]
  {
    var all := added + [ReplaceNetwork] + [ReplaceDefault] + [AddRule];
    assert commands == all[..|commands|];
    if |commands| == |added| { assert commands == added; }
    else if |commands| == |added| + 1 { assert commands == added + [ReplaceNetwork]; }
    else if |commands| == |added| + 2 { assert commands == added + [ReplaceNetwork] + [ReplaceDefault]; }
    else if |commands| == |added| + 3 { assert commands == all; }
    else { assert commands == []; }
  }

  /** Following the plan as far as one gets. */
  lemma PlanStarts(base: Family, g: Goal, commands: seq<Command>)
    requires g.Chosen(base) && commands <= Plan(g)
    ensures var f := RunEach(base, g, commands);
            && Guarded(f, base, g.address, g.gateway, g.table)
            && (commands == Plan(g) ==> Started(f, base, g.address, g.gateway, g.table))
  {
    hide Run, InsertRule, UsedNumbers, Leads, RunEach;
    var added := AddressPlan(g);
    var f := RunEach(base, g, added);
    AddedIs(base, g);
    if g.table.Some? {
      var t, a, gw := g.table.value, g.address.value, g.gateway.value;
      FreeRules(base, t);
      RuleLeads(base.rules, a, t);
      FreeExactlyWhen(base, t);
      RoutesFilled(base.routes, a, gw, t);
      RunOneMore(base, g, added, ReplaceNetwork);
      RunOneMore(base, g, added + [ReplaceNetwork], ReplaceDefault);
      RunOneMore(base, g, added + [ReplaceNetwork] + [ReplaceDefault], AddRule);
      PolicyIs(f, g);
      assert Plan(g) == added + [ReplaceNetwork] + [ReplaceDefault] + [AddRule];
      PrefixOf(added, commands);
    } else {
      assert Plan(g) == added;
      assert commands == added || commands == [];
    }
  }

  /** All live steps together start both families; however far they get, both are guarded. */
  lemma LiveStepsStart(base: Live, goals: Goals, k: nat, v: Version)
    requires goals.Chosen(base) && k <= |LiveSteps(goals)|
    ensures var f, b, g := FamilyOf(RunLive(base, goals, LiveSteps(goals), k, {}), v), FamilyOf(base, v), goals.Of(v);
            && Guarded(f, b, g.address, g.gateway, g.table)
            && (k == |LiveSteps(goals)| ==> Started(f, b, g.address, g.gateway, g.table))
  {
    hide RunLive, LiveSteps, CommandsOf, RunEach, Plan, Started, Guarded, Goal.Chosen;
    FamilyRuns(base, goals, LiveSteps(goals), k, v);
    StepsFollowPlan(goals, k, v);
    PlanStarts(FamilyOf(base, v), goals.Of(v), CommandsOf(LiveSteps(goals), k, v));
  }

  // ----------------------------------------------------------------- on the way back

  function UndoPlan(g: Goal): seq<Command> {
    (if g.table.Some? then [DeleteRule, FlushTable] else []) + (if g.added then [DeleteAddress] else [])
  }

  lemma UndoTableCommands(g: Goal, u: Version, k: nat, v: Version)
    requires k <= |UndoTable(u, g)|
    ensures CommandsOf(UndoTable(u, g), k, v) == if u == v then [DeleteRule, FlushTable][..k] else []
  {
    var steps := UndoTable(u, g);
    assert CommandsOf(steps, 0, v) == [];
    if k > 0 { assert CommandsOf(steps, 1, v) == if u == v then [DeleteRule, FlushTable][..1] else []; }
  }

  lemma UndoAddressCommands(g: Goal, u: Version, k: nat, v: Version)
    requires k <= |UndoAddress(u, g)|
    ensures CommandsOf(UndoAddress(u, g), k, v) == if u == v then [DeleteAddress][..k] else []
  {
    assert CommandsOf(UndoAddress(u, g), 0, v) == [];
  }

  lemma UndoFollowsPlan(goals: Goals, k: nat, v: Version)
    requires k <= |LiveUndo(goals)|
    ensures CommandsOf(LiveUndo(goals), k, v) <= UndoPlan(goals.Of(v))
  {
    hide CommandsOf, UndoTable, UndoAddress, Least;
    var t4, t6 := UndoTable(Four, goals.four), UndoTable(Six, goals.six);
    var a4, a6 := UndoAddress(Four, goals.four), UndoAddress(Six, goals.six);
    LeastMeans(k, |t4|);
    var k4 := Least(k, |t4|);
    LeastMeans(k - k4, |t6|);
    var k6 := Least(k - k4, |t6|);
    LeastMeans(k - k4 - k6, |a4|);
    var m4 := Least(k - k4 - k6, |a4|);
    var m6 := k - k4 - k6 - m4;
    FourParts(t4, t6, a4, a6, k, v);
    UndoPart(goals.four, Four, k4, m4, v);
    UndoPart(goals.six, Six, k6, m6, v);
    if v == Four {
      FourAndSix(CommandsOf(t4, k4, v), CommandsOf(a4, m4, v));
    } else {
      FourAndSix(CommandsOf(t6, k6, v), CommandsOf(a6, m6, v));
    }
  }

  /** What one family has been told of its own undo. */
  lemma UndoPart(g: Goal, u: Version, k: nat, m: nat, v: Version)
    requires k <= |UndoTable(u, g)| && m <= |UndoAddress(u, g)| && (m > 0 ==> k == |UndoTable(u, g)|)
    ensures u != v ==> CommandsOf(UndoTable(u, g), k, v) == CommandsOf(UndoAddress(u, g), m, v) == []
    ensures u == v ==> CommandsOf(UndoTable(u, g), k, v) + CommandsOf(UndoAddress(u, g), m, v) <= UndoPlan(g)
  {
    hide CommandsOf;
    UndoTableCommands(g, u, k, v);
    UndoAddressCommands(g, u, m, v);
    PrefixOfBoth(if g.table.Some? then [DeleteRule, FlushTable] else [], if g.added then [DeleteAddress] else [], k, m);
  }

  lemma UndoPlanGuards(f: Family, base: Family, g: Goal, commands: seq<Command>)
    requires g.Chosen(base) && Underway(f, base, g) && Guarded(f, base, g.address, g.gateway, g.table)
    requires commands <= UndoPlan(g)
    ensures Guarded(RunEach(f, g, commands), base, g.address, g.gateway, g.table)
  {
    hide Run, RunEach, Free, MustAdd, InsertRule, DropRule;
    EachOfNone(f, g);
    if g.table.Some? {
      RuleGone(f, base, g);
      RunOneMore(f, g, [], DeleteRule);
      RunOneMore(f, g, [DeleteRule], FlushTable);
      assert [] + [DeleteRule] == [DeleteRule] && [DeleteRule] + [FlushTable] == [DeleteRule, FlushTable];
      if g.added {
        RunOneMore(f, g, [DeleteRule, FlushTable], DeleteAddress);
        assert [DeleteRule, FlushTable] + [DeleteAddress] == [DeleteRule, FlushTable, DeleteAddress];
        AddressGoes(RunEach(f, g, [DeleteRule, FlushTable]), g);
      }
      ShortUndo(g, commands);
    } else if g.added {
      RunOneMore(f, g, [], DeleteAddress);
      assert [] + [DeleteAddress] == [DeleteAddress] == UndoPlan(g);
      AddressGoes(f, g);
      assert commands == [] || commands == [DeleteAddress];
    }
  }

  lemma ShortUndo(g: Goal, commands: seq<Command>)
    requires g.table.Some? && commands <= UndoPlan(g)
    ensures || commands == [] || commands == [DeleteRule] || commands == [DeleteRule, FlushTable]
            || (g.added && commands == [DeleteRule, FlushTable, DeleteAddress])
  {
    assert commands == UndoPlan(g)[..|commands|];
    if |commands| == 1 { assert commands == [DeleteRule]; }
    if |commands| == 2 { assert commands == [DeleteRule, FlushTable]; }
    if |commands| == 3 { assert commands == [DeleteRule, FlushTable, DeleteAddress]; }
  }

  lemma EachOfNone(f: Family, g: Goal)
    ensures RunEach(f, g, []) == f
  {
  }

  lemma RuleGone(f: Family, base: Family, g: Goal)
    requires g.Chosen(base) && Underway(f, base, g) && g.table.Some?
    ensures var one := Run(f, g, DeleteRule);
            && one == f.(rules := base.rules) && Run(one, g, FlushTable) == one.(routes := base.routes)
  {
    hide MustAdd, UsedNumbers, InsertRule, DropRule;
    FreeRules(base, g.table.value);
    DropInserted(base.rules, TheRule(g));
  }

  lemma AddressGoes(f: Family, g: Goal)
    ensures Run(f, g, DeleteAddress).rules == f.rules && Run(f, g, DeleteAddress).routes == f.routes
  {
    hide InsertRule, DropRule, Replace;
  }

  /** However far the undo commands get, as long as none is refused, both families stay guarded. */
  lemma UndoStaysGuarded(live: Live, base: Live, goals: Goals, k: nat, v: Version)
    requires goals.Chosen(base) && LiveUnderway(live, base, goals) && k <= |LiveUndo(goals)|
    requires Guarded(FamilyOf(live, v), FamilyOf(base, v), goals.Of(v).address, goals.Of(v).gateway, goals.Of(v).table)
    ensures var f, g := FamilyOf(RunLive(live, goals, LiveUndo(goals), k, {}), v), goals.Of(v);
            Guarded(f, FamilyOf(base, v), g.address, g.gateway, g.table)
  {
    hide RunLive, LiveUndo, CommandsOf, RunEach, UndoPlan, Guarded, Goal.Chosen, Underway;
    FamilyRuns(live, goals, LiveUndo(goals), k, v);
    UndoFollowsPlan(goals, k, v);
    UndoPlanGuards(FamilyOf(live, v), FamilyOf(base, v), goals.Of(v), CommandsOf(LiveUndo(goals), k, v));
  }

  /** The commands refused in one family. */
  function RefusedIn(refused: set<LiveStep>, v: Version): set<Command> {
    set s <- refused | s.version == v :: s.command
  }

  function LiveUndone(live: Live, goals: Goals, refused: set<LiveStep>): Live {
    RunLive(live, goals, LiveUndo(goals), |LiveUndo(goals)|, refused)
  }

  function RunAll(live: Live, goals: Goals, steps: seq<LiveStep>, refused: set<LiveStep>): Live {
    RunLive(live, goals, steps, |steps|, refused)
  }

  lemma {:induction false} RunLivePrefix(
    live: Live, goals: Goals, a: seq<LiveStep>, b: seq<LiveStep>, k: nat, refused: set<LiveStep>)
    requires k <= |a|
    ensures RunLive(live, goals, a + b, k, refused) == RunLive(live, goals, a, k, refused)
  {
    hide Take;
    if k > 0 {
      RunLivePrefix(live, goals, a, b, k - 1, refused);
      assert (a + b)[k - 1] == a[k - 1];
    }
  }

  lemma {:induction false} RunLiveConcat(
    live: Live, goals: Goals, a: seq<LiveStep>, b: seq<LiveStep>, k: nat, refused: set<LiveStep>)
    requires k <= |b|
    ensures RunLive(live, goals, a + b, |a| + k, refused)
            == RunLive(RunAll(live, goals, a, refused), goals, b, k, refused)
  {
    hide Take;
    if k == 0 {
      RunLivePrefix(live, goals, a, b, |a|, refused);
    } else {
      RunLiveConcat(live, goals, a, b, k - 1, refused);
      assert (a + b)[|a| + k - 1] == b[k - 1];
    }
  }

  lemma RunAllConcat(live: Live, goals: Goals, a: seq<LiveStep>, b: seq<LiveStep>, refused: set<LiveStep>)
    ensures RunAll(live, goals, a + b, refused) == RunAll(RunAll(live, goals, a, refused), goals, b, refused)
  {
    RunLiveConcat(live, goals, a, b, |b|, refused);
  }

  function With(live: Live, v: Version, f: Family): Live {
    if v.Four? then live.(four := f) else live.(six := f)
  }

  function TableUndone(f: Family, g: Goal, refused: set<Command>): Family {
    var a := if g.table.None? || DeleteRule in refused then f else Run(f, g, DeleteRule);
    if g.table.None? || FlushTable in refused then a else Run(a, g, FlushTable)
  }

  function AddressUndone(f: Family, g: Goal, refused: set<Command>): Family {
    if !g.added || DeleteAddress in refused then f else Run(f, g, DeleteAddress)
  }

  lemma UndoTableRuns(live: Live, goals: Goals, v: Version, refused: set<LiveStep>)
    ensures RunAll(live, goals, UndoTable(v, goals.Of(v)), refused)
         == With(live, v, TableUndone(FamilyOf(live, v), goals.Of(v), RefusedIn(refused, v)))
  {
    hide Run;
    var steps, r := UndoTable(v, goals.Of(v)), RefusedIn(refused, v);
    RefusedCommand(refused, v, DeleteRule);
    RefusedCommand(refused, v, FlushTable);
    if goals.Of(v).table.Some? {
      assert RunLive(live, goals, steps, 0, refused) == live;
      assert RunLive(live, goals, steps, 1, refused)
          == if DeleteRule in r then live else With(live, v, Run(FamilyOf(live, v), goals.Of(v), DeleteRule));
    }
  }

  lemma UndoAddressRuns(live: Live, goals: Goals, v: Version, refused: set<LiveStep>)
    ensures RunAll(live, goals, UndoAddress(v, goals.Of(v)), refused)
         == With(live, v, AddressUndone(FamilyOf(live, v), goals.Of(v), RefusedIn(refused, v)))
  {
    hide Run;
    RefusedCommand(refused, v, DeleteAddress);
    if goals.Of(v).added {
      assert RunLive(live, goals, UndoAddress(v, goals.Of(v)), 0, refused) == live;
    }
  }

  lemma RefusedCommand(refused: set<LiveStep>, v: Version, c: Command)
    ensures c in RefusedIn(refused, v) <==> LiveStep(v, c) in refused
  {
    assert LiveStep(v, c) in refused ==> LiveStep(v, c).command in RefusedIn(refused, v);
  }

  lemma LiveUndoneByFamily(live: Live, goals: Goals, refused: set<LiveStep>)
    ensures LiveUndone(live, goals, refused)
         == Live(Undone(live.four, goals.four, RefusedIn(refused, Four)),
                 Undone(live.six, goals.six, RefusedIn(refused, Six)))
  {
    hide Run, RunLive, UndoTable, UndoAddress, RefusedIn;
    var t4, t6 := UndoTable(Four, goals.four), UndoTable(Six, goals.six);
    var a4, a6 := UndoAddress(Four, goals.four), UndoAddress(Six, goals.six);
    RunAllConcat(live, goals, t4 + t6 + a4, a6, refused);
    RunAllConcat(live, goals, t4 + t6, a4, refused);
    RunAllConcat(live, goals, t4, t6, refused);
    UndoTableRuns(live, goals, Four, refused);
    UndoTableRuns(RunAll(live, goals, t4, refused), goals, Six, refused);
    UndoAddressRuns(RunAll(live, goals, t4 + t6, refused), goals, Four, refused);
    UndoAddressRuns(RunAll(live, goals, t4 + t6 + a4, refused), goals, Six, refused);
  }

  /** A refused undo command that had something to remove. */
  ghost predicate LeavesResidue(live: Live, goals: Goals, refused: set<LiveStep>) {
    exists s <- refused :: HasEffect(FamilyOf(live, s.version), goals.Of(s.version), s.command)
  }

  lemma ResidueByFamily(live: Live, goals: Goals, refused: set<LiveStep>)
    ensures !LeavesResidue(live, goals, refused)
       <==> (forall c <- RefusedIn(refused, Four) :: !HasEffect(live.four, goals.four, c))
            && (forall c <- RefusedIn(refused, Six) :: !HasEffect(live.six, goals.six, c))
  {
    hide HasEffect;
    if !LeavesResidue(live, goals, refused) {
      forall c <- RefusedIn(refused, Four) ensures !HasEffect(live.four, goals.four, c) {
        assert LiveStep(Four, c) in refused;
      }
      forall c <- RefusedIn(refused, Six) ensures !HasEffect(live.six, goals.six, c) {
        assert LiveStep(Six, c) in refused;
      }
    } else {
      var s :| s in refused && HasEffect(FamilyOf(live, s.version), goals.Of(s.version), s.command);
      assert s.command in RefusedIn(refused, s.version);
    }
  }

  /** Undoing is exact exactly when no command that had something to remove was refused. */
  lemma LiveUndoIsExact(live: Live, base: Live, goals: Goals, refused: set<LiveStep>)
    requires goals.Chosen(base) && LiveUnderway(live, base, goals)
    ensures LiveUndone(live, goals, refused) == base <==> !LeavesResidue(live, goals, refused)
  {
    hide Undone, HasEffect, LiveUndone, LeavesResidue, Underway, Goal.Chosen, RefusedIn;
    LiveUndoneByFamily(live, goals, refused);
    ResidueByFamily(live, goals, refused);
    UndoneExactlyWhen(live.four, base.four, goals.four, RefusedIn(refused, Four));
    UndoneExactlyWhen(live.six, base.six, goals.six, RefusedIn(refused, Six));
  }
}
