/**
 Reconciliation of numbered firewall rules. Deleting a rule renumbers those
 behind it, and additions come before removals.
 */
module Firewall {
  import opened Wrappers
  import opened PyText

  const COMMENT_PREFIX := "infra_tools T3 Code"

  /** A listed rule; its number is its place in the list. */
  datatype Rule = Rule(comment: string, line: string)

  /** A port opened to the sources, and what its comment says about it. */
  datatype Exposed = Exposed(port: string, suffix: string)

  predicate Managed(r: Rule) { StartsWith(r.comment, COMMENT_PREFIX) }

  predicate Stale(r: Rule, desired: set<string>) { Managed(r) && r.comment !in desired }

  /** The rules that stay, in order. */
  function Keep(rules: seq<Rule>, desired: set<string>): seq<Rule> {
    if rules == [] then []
    else (if Stale(rules[0], desired) then [] else [rules[0]]) + Keep(rules[1..], desired)
  }

  function Unmanaged(rules: seq<Rule>): seq<Rule> {
    if rules == [] then [] else (if Managed(rules[0]) then [] else [rules[0]]) + Unmanaged(rules[1..])
  }

  function ManagedComments(rules: seq<Rule>): set<string> {
    set r <- rules | Managed(r) :: r.comment
  }

  function Without(rules: seq<Rule>, i: nat): seq<Rule>
    requires i < |rules|
  {
    rules[..i] + rules[i + 1..]
  }

  // -------------------------------------------------------- deletion by number

  /** Places of the stale rules, ascending. */
  function StalePlaces(rules: seq<Rule>, desired: set<string>, n: nat): (places: seq<nat>)
    requires n <= |rules|
    ensures forall p <- places :: p < n
  {
    if n == 0 then []
    else StalePlaces(rules, desired, n - 1) + (if Stale(rules[n - 1], desired) then [n - 1] else [])
  }

  lemma {:induction false} KeepConcat(a: seq<Rule>, b: seq<Rule>, desired: set<string>)
    ensures Keep(a + b, desired) == Keep(a, desired) + Keep(b, desired)
  {
    hide Stale;
    if a == [] {
      assert a + b == b;
    } else {
      assert (a + b)[1..] == a[1..] + b;
      KeepConcat(a[1..], b, desired);
    }
  }

  lemma {:induction false} KeepAll(a: seq<Rule>, desired: set<string>)
    requires forall r <- a :: !Stale(r, desired)
    ensures Keep(a, desired) == a
  {
    hide Stale;
    if a != [] {
      assert a[0] in a && forall r <- a[1..] :: r in a;
      KeepAll(a[1..], desired);
    }
  }

  lemma {:induction false} KeepMembers(rules: seq<Rule>, desired: set<string>)
    ensures forall r :: r in Keep(rules, desired) <==> r in rules && !Stale(r, desired)
  {
    hide Stale;
    if rules != [] {
      KeepMembers(rules[1..], desired);
      assert forall r :: r in rules <==> r == rules[0] || r in rules[1..];
    }
  }

  /** What is left after the stale rules at the listed places from `k` on are deleted. */
  function After(rules: seq<Rule>, desired: set<string>, places: seq<nat>, k: nat): seq<Rule>
    requires k <= |places| && forall p <- places :: p < |rules|
  {
    if k == |places| then rules
    else
      assert places[k] in places;
      rules[..places[k]] + Keep(rules[places[k]..], desired)
  }

  /** Between two listed places nothing is stale. */
  lemma {:induction false} PlacesAreExact(rules: seq<Rule>, desired: set<string>, n: nat)
    requires n <= |rules|
    ensures var places := StalePlaces(rules, desired, n);
            && (forall p: nat | p < n :: p in places <==> Stale(rules[p], desired))
            && (forall j, k | 0 <= j < k < |places| :: places[j] < places[k])
  {
    hide Stale;
    if n > 0 {
      PlacesAreExact(rules, desired, n - 1);
      var before := StalePlaces(rules, desired, n - 1);
      assert forall j | 0 <= j < |before| :: before[j] in before;
    }
  }

  /** Deleting by descending number: one deletion leads from `After(k + 1)` to `After(k)`. */
  lemma DeleteNext(rules: seq<Rule>, desired: set<string>, k: nat)
    requires k < |StalePlaces(rules, desired, |rules|)|
    ensures var places := StalePlaces(rules, desired, |rules|);
            places[k] < |After(rules, desired, places, k + 1)|
            && Without(After(rules, desired, places, k + 1), places[k]) == After(rules, desired, places, k)
  {
    hide Stale, Keep;
    var places := StalePlaces(rules, desired, |rules|);
    PlacesAreExact(rules, desired, |rules|);
    assert places[k] in places;
    var p := places[k];
    var q := if k + 1 == |places| then |rules| else places[k + 1];
    if k + 1 < |places| { assert places[k + 1] in places; }
    var between := rules[p + 1..q];
    forall j | 0 <= j < |places|
      ensures places[j] <= p || places[j] >= q
    {
      assert j < k ==> places[j] < places[k];
      assert j > k + 1 ==> places[k + 1] < places[j];
    }
    forall i: nat | p < i < q
      ensures i !in places && !Stale(rules[i], desired)
    {
    }
    assert forall i | 0 <= i < |between| :: between[i] == rules[p + 1 + i];
    KeepAll(between, desired);
    SplitKeep(rules, desired, p, q);
    KeepNothing(desired);
    assert rules[|rules|..] == [] && rules[..|rules|] + [] == rules;
    assert After(rules, desired, places, k + 1) == rules[..q] + Keep(rules[q..], desired);
    Splice(rules, p, q, Keep(rules[q..], desired));
  }

  lemma KeepNothing(desired: set<string>)
    ensures Keep([], desired) == []
  {
  }

  lemma SplitKeep(rules: seq<Rule>, desired: set<string>, p: nat, q: nat)
    requires p < q <= |rules| && Stale(rules[p], desired)
    ensures Keep(rules[p..], desired) == Keep(rules[p + 1..q], desired) + Keep(rules[q..], desired)
  {
    hide Stale;
    assert rules[p..][1..] == rules[p + 1..];
    assert rules[p + 1..] == rules[p + 1..q] + rules[q..];
    KeepConcat(rules[p + 1..q], rules[q..], desired);
  }

  lemma Splice(rules: seq<Rule>, p: nat, q: nat, tail: seq<Rule>)
    requires p < q <= |rules|
    ensures Without(rules[..q] + tail, p) == rules[..p] + (rules[p + 1..q] + tail)
  {
  }

  /** When all are deleted, what stays is the kept rules in their order. */
  lemma AllDeleted(rules: seq<Rule>, desired: set<string>)
    ensures After(rules, desired, StalePlaces(rules, desired, |rules|), 0) == Keep(rules, desired)
  {
    hide Stale, Keep, StalePlaces;
    var places := StalePlaces(rules, desired, |rules|);
    PlacesAreExact(rules, desired, |rules|);
    if places == [] {
      forall i | 0 <= i < |rules| ensures !Stale(rules[i], desired) { assert i !in places; }
      KeepAll(rules, desired);
    } else {
      var p := places[0];
      assert p in places;
      forall i: nat | i < p
        ensures i !in places
      {
        forall j | 0 <= j < |places| ensures i != places[j] { assert j > 0 ==> places[0] < places[j]; }
      }
      KeepAll(rules[..p], desired);
      KeepConcat(rules[..p], rules[p..], desired);
      assert rules == rules[..p] + rules[p..];
    }
  }

  lemma AfterKeeps(rules: seq<Rule>, desired: set<string>, places: seq<nat>, k: nat)
    requires k <= |places| && forall p <- places :: p < |rules|
    ensures forall r <- rules | !Stale(r, desired) :: r in After(rules, desired, places, k)
    ensures forall r <- After(rules, desired, places, k) :: r in rules
    ensures Unmanaged(After(rules, desired, places, k)) == Unmanaged(rules)
  {
    hide Stale, Keep, Unmanaged;
    if k < |places| {
      var p := places[k];
      assert p in places;
      KeepMembers(rules[p..], desired);
      assert rules == rules[..p] + rules[p..];
      UnmanagedConcat(rules[..p], rules[p..]);
      UnmanagedConcat(rules[..p], Keep(rules[p..], desired));
      UnmanagedKept(rules[p..], desired);
    }
  }

  lemma {:induction false} UnmanagedConcat(a: seq<Rule>, b: seq<Rule>)
    ensures Unmanaged(a + b) == Unmanaged(a) + Unmanaged(b)
  {
    hide Managed;
    if a == [] {
      assert a + b == b;
    } else {
      assert (a + b)[1..] == a[1..] + b;
      UnmanagedConcat(a[1..], b);
    }
  }

  lemma {:induction false} UnmanagedKept(rules: seq<Rule>, desired: set<string>)
    ensures Unmanaged(Keep(rules, desired)) == Unmanaged(rules)
  {
    hide Managed;
    if rules != [] {
      UnmanagedKept(rules[1..], desired);
      var head := if Stale(rules[0], desired) then [] else [rules[0]];
      UnmanagedConcat(head, Keep(rules[1..], desired));
      OneUnmanaged(rules[0]);
    }
  }

  lemma OneUnmanaged(r: Rule)
    ensures Unmanaged([r]) == if Managed(r) then [] else [r]
  {
    assert [r][1..] == [];
  }

  // ------------------------------------------------------------- configuration

  datatype Error = CannotRemove | NoSources | Inactive | Conflict | CannotInstall(source: string)
    | NotRetained(comments: set<string>)

  /** What a request to add a rule does. */
  datatype Attempt = Refused | Ignored | Inserted(place: nat, line: string)

  function CommentOf(source: string, e: Exposed): string {
    COMMENT_PREFIX + (e.suffix + (" " + (e.port + ("/tcp source " + source))))
  }

  /** A port number as it is printed. */
  predicate IsPort(port: string) {
    port != "" && forall c <- port :: '0' <= c <= '9'
  }

  lemma SameBehind(a: string, b: string, c: string, d: string)
    requires a + b == c + d && |a| == |c|
    ensures a == c && b == d
  {
    assert (a + b)[..|a|] == a && (c + d)[..|c|] == c && (a + b)[|a|..] == b && (c + d)[|c|..] == d;
  }

  function SlashAt(s: string): nat {
    if s == "" || s[0] == '/' then 0 else 1 + SlashAt(s[1..])
  }

  lemma {:induction false} SlashBehind(a: string, b: string)
    requires forall c <- a :: c != '/'
    ensures SlashAt(a + (['/'] + b)) == |a|
  {
    var s := a + (['/'] + b);
    if a != "" {
      assert s[0] == a[0] && a[0] in a && s[1..] == a[1..] + (['/'] + b);
      assert forall c <- a[1..] :: c in a;
      SlashBehind(a[1..], b);
    }
  }

  /** Digits before a slash are read off uniquely. */
  lemma SamePort(a: string, b: string, c: string, d: string)
    requires IsPort(a) && IsPort(c) && a + (['/'] + b) == c + (['/'] + d)
    ensures a == c && b == d
  {
    SlashBehind(a, b);
    SlashBehind(c, d);
    SameBehind(a, ['/'] + b, c, ['/'] + d);
    assert (['/'] + b)[1..] == b && (['/'] + d)[1..] == d;
  }

  lemma SuffixShows(suffix: string, port: string, rest: string)
    requires IsPort(port) && suffix in {"", " pairing"}
    ensures var text := suffix + (" " + (port + rest)); |text| > 1 && (text[1] == 'p' <==> suffix == " pairing")
  {
    var text := suffix + (" " + (port + rest));
    assert port[0] in port;
    if suffix == "" { assert text[1] == port[0]; } else { assert text[1] == " pairing"[1] == 'p'; }
  }

  /** The comment tells source, port and purpose apart, so each rule has a comment of its own. */
  lemma CommentsDiffer(s: string, e: Exposed, t: string, f: Exposed)
    requires IsPort(e.port) && IsPort(f.port) && e.suffix in {"", " pairing"} && f.suffix in {"", " pairing"}
    ensures CommentOf(s, e) == CommentOf(t, f) <==> s == t && e == f
  {
    if CommentOf(s, e) == CommentOf(t, f) {
      var a, b := " " + (e.port + ("/tcp source " + s)), " " + (f.port + ("/tcp source " + t));
      SameBehind(COMMENT_PREFIX, e.suffix + a, COMMENT_PREFIX, f.suffix + b);
      SuffixShows(e.suffix, e.port, "/tcp source " + s);
      SuffixShows(f.suffix, f.port, "/tcp source " + t);
      SameBehind(e.suffix, a, f.suffix, b);
      SameBehind(" ", e.port + ("/tcp source " + s), " ", f.port + ("/tcp source " + t));
      assert "/tcp source " + s == ['/'] + ("tcp source " + s) && "/tcp source " + t == ['/'] + ("tcp source " + t);
      SamePort(e.port, "tcp source " + s, f.port, "tcp source " + t);
      SameBehind("tcp source ", s, "tcp source ", t);
    }
  }

  /** One rule for each source and port. */
  function Desired(sources: seq<string>, ports: seq<Exposed>): set<string> {
    set s <- sources, e <- ports :: CommentOf(s, e)
  }

  predicate Contains(s: string, part: string) {
    exists i | 0 <= i <= |s| :: part <= s[i..]
  }

  /** A text contains a part exactly when it stands somewhere between two others. */
  lemma ContainsExactlyWhen(s: string, part: string)
    ensures Contains(s, part) <==> exists a, b :: s == a + part + b
  {
    if Contains(s, part) {
      var i :| 0 <= i <= |s| && part <= s[i..];
      assert s == s[..i] + part + s[i + |part|..];
    }
    if a, b :| s == a + part + b {
      assert s[|a|..] == part + b && part <= s[|a|..];
    }
  }

  /** An allow rule on a managed port whose comment is not one of the managed ones. */
  predicate Conflicts(r: Rule, ports: seq<Exposed>, managed: set<string>) {
    && (exists e <- ports :: Contains(r.line, e.port + "/tcp")) && Contains(r.line, "ALLOW IN")
    && r.comment !in managed
  }

  lemma CommentIsManaged(source: string, e: Exposed, line: string)
    ensures Managed(Rule(CommentOf(source, e), line))
  {
    var rest := e.suffix + (" " + (e.port + ("/tcp source " + source)));
    assert (COMMENT_PREFIX + rest)[..|COMMENT_PREFIX|] == COMMENT_PREFIX;
  }

  function Insert(rules: seq<Rule>, place: nat, r: Rule): seq<Rule> {
    var k := if place <= |rules| then place else |rules|;
    rules[..k] + [r] + rules[k..]
  }

  /** While reconciling: foreign rules are untouched, and no rule goes that was wanted before and after. */
  ghost predicate Sound(rules: seq<Rule>, before: seq<Rule>, desired: set<string>) {
    && Unmanaged(rules) == Unmanaged(before)
    && (forall r <- before | !Stale(r, desired) :: r in rules)
    && ((forall r <- before :: r in rules) || desired <= ManagedComments(rules))
  }

  lemma InsertIsSound(rules: seq<Rule>, before: seq<Rule>, desired: set<string>, place: nat, r: Rule)
    requires Unmanaged(rules) == Unmanaged(before) && (forall x <- before :: x in rules) && Managed(r)
    ensures var after := Insert(rules, place, r);
            Unmanaged(after) == Unmanaged(before) && (forall x <- before :: x in after)
              && (forall x <- rules :: x in after)
            && ManagedComments(after) == ManagedComments(rules) + {r.comment}
                 && (forall x <- after :: x == r || x in rules)
  {
    hide Managed, Unmanaged;
    var k := if place <= |rules| then place else |rules|;
    var after := Insert(rules, place, r);
    assert rules == rules[..k] + rules[k..];
    UnmanagedConcat(rules[..k], rules[k..]);
    UnmanagedConcat(rules[..k], [r]);
    UnmanagedConcat(rules[..k] + [r], rules[k..]);
    OneUnmanaged(r);
    assert Unmanaged(rules[..k]) + [] == Unmanaged(rules[..k]);
    assert forall x :: x in after <==> x == r || x in rules;
  }

  // ------------------------------------------------------------------ outcomes

  type Answers = (string, Exposed) -> Attempt

  /** Some rule for the source is missing and refused. */
  predicate SomeRefused(source: string, ports: seq<Exposed>, managed: set<string>, attempts: Answers) {
    exists e <- ports :: CommentOf(source, e) !in managed && attempts(source, e).Refused?
  }

  /** The first source for which a rule is refused. */
  predicate FirstRefused(
    source: string, sources: seq<string>, ports: seq<Exposed>, managed: set<string>, attempts: Answers)
  {
    exists i | 0 <= i < |sources| ::
      && sources[i] == source && SomeRefused(source, ports, managed, attempts)
      && forall k | 0 <= k < i :: !SomeRefused(sources[k], ports, managed, attempts)
  }

  /** The comments of the rules that were missing and have been added for one source. */
  function AddedFor(source: string, ports: seq<Exposed>, managed: set<string>, attempts: Answers): set<string> {
    set e <- ports | CommentOf(source, e) !in managed && attempts(source, e).Inserted? :: CommentOf(source, e)
  }

  function Added(sources: seq<string>, ports: seq<Exposed>, managed: set<string>, attempts: Answers): set<string> {
    set s <- sources, c <- AddedFor(s, ports, managed, attempts) :: c
  }

  lemma AddedOneMore(sources: seq<string>, i: nat, ports: seq<Exposed>, managed: set<string>, attempts: Answers)
    requires i < |sources|
    ensures Added(sources[..i + 1], ports, managed, attempts)
         == Added(sources[..i], ports, managed, attempts) + AddedFor(sources[i], ports, managed, attempts)
  {
    hide AddedFor;
    assert sources[..i + 1] == sources[..i] + [sources[i]];
  }

  lemma AddedForOneMore(source: string, ports: seq<Exposed>, j: nat, managed: set<string>, attempts: Answers)
    requires j < |ports|
    ensures var c := CommentOf(source, ports[j]);
            AddedFor(source, ports[..j + 1], managed, attempts)
            == AddedFor(source, ports[..j], managed, attempts)
               + (if c !in managed && attempts(source, ports[j]).Inserted? then {c} else {})
  {
    hide CommentOf;
    assert ports[..j + 1] == ports[..j] + [ports[j]];
  }

  /** The managed rules that are not wanted, in their order. */
  function Unwanted(rules: seq<Rule>, desired: set<string>): seq<Rule> {
    if rules == [] then []
    else (if COMMENT_PREFIX <= rules[0].comment && rules[0].comment !in desired then [rules[0]] else [])
         + Unwanted(rules[1..], desired)
  }

  lemma {:induction false} UnwantedConcat(a: seq<Rule>, b: seq<Rule>, desired: set<string>)
    ensures Unwanted(a + b, desired) == Unwanted(a, desired) + Unwanted(b, desired)
  {
    if a == [] {
      assert a + b == b;
    } else {
      assert (a + b)[1..] == a[1..] + b;
      UnwantedConcat(a[1..], b, desired);
    }
  }

  lemma OneUnwanted(r: Rule, desired: set<string>)
    ensures Unwanted([r], desired) == if Stale(r, desired) then [r] else []
  {
    assert [r][1..] == [];
  }

  lemma {:induction false} PlacesAreUnwanted(rules: seq<Rule>, desired: set<string>, n: nat)
    requires n <= |rules|
    ensures |StalePlaces(rules, desired, n)| == |Unwanted(rules[..n], desired)|
  {
    hide Stale;
    if n > 0 {
      PlacesAreUnwanted(rules, desired, n - 1);
      assert rules[..n] == rules[..n - 1] + [rules[n - 1]];
      UnwantedConcat(rules[..n - 1], [rules[n - 1]], desired);
      OneUnwanted(rules[n - 1], desired);
    }
  }

  /** As many deletions as there are unwanted rules. */
  lemma DeletionsNeeded(rules: seq<Rule>, desired: set<string>)
    ensures |StalePlaces(rules, desired, |rules|)| == |Unwanted(rules, desired)|
  {
    hide StalePlaces, Unwanted;
    PlacesAreUnwanted(rules, desired, |rules|);
    assert rules[..|rules|] == rules;
  }

  lemma WantedAdded(rules: seq<Rule>, place: nat, r: Rule, desired: set<string>)
    requires !Stale(r, desired)
    ensures Unwanted(Insert(rules, place, r), desired) == Unwanted(rules, desired)
  {
    hide Stale, Unwanted;
    var k := if place <= |rules| then place else |rules|;
    assert rules == rules[..k] + rules[k..];
    UnwantedConcat(rules[..k], rules[k..], desired);
    UnwantedConcat(rules[..k] + [r], rules[k..], desired);
    UnwantedConcat(rules[..k], [r], desired);
    OneUnwanted(r, desired);
  }

  /** A rule is inserted: what it says of the comments and of the unwanted rules. */
  lemma RequestInserted(
    rules: seq<Rule>, place: nat, line: string, source: string, e: Exposed, sources: seq<string>, ports: seq<Exposed>)
    requires source in sources && e in ports
    ensures var after := Insert(rules, place, Rule(CommentOf(source, e), line));
            && ManagedComments(after) == ManagedComments(rules) + {CommentOf(source, e)}
            && Unwanted(after, Desired(sources, ports)) == Unwanted(rules, Desired(sources, ports))
  {
    hide CommentOf, Insert, Unwanted, Managed;
    var r := Rule(CommentOf(source, e), line);
    CommentIsManaged(source, e, line);
    InsertMembers(rules, place, r);
    assert CommentOf(source, e) in Desired(sources, ports);
    WantedAdded(rules, place, r, Desired(sources, ports));
  }

  lemma InsertMembers(rules: seq<Rule>, place: nat, r: Rule)
    ensures forall x :: x in Insert(rules, place, r) <==> x == r || x in rules
  {
    var k := if place <= |rules| then place else |rules|;
    assert rules == rules[..k] + rules[k..];
  }

  class Ufw {
    var rules: seq<Rule>
    const active: bool
    ghost var history: seq<seq<Rule>>   // the rules after every change

    constructor (rules: seq<Rule>, active: bool)
      ensures this.rules == rules && this.active == active && history == []
    {
      this.rules, this.active := rules, active;
      history := [];
    }

    /** Deletes the stale rules by descending number; the first `limit` deletions succeed. */
    method RemoveManagedRules(desired: set<string>, limit: nat) returns (ok: bool)
      modifies this
      ensures var places := StalePlaces(old(rules), desired, |old(rules)|);
              && (ok <==> limit >= |places|)
              && (ok ==> rules == Keep(old(rules), desired))
              && (!ok ==> rules == After(old(rules), desired, places, |places| - limit))
      ensures old(history) <= history
      ensures forall s <- history[|old(history)|..] ::
                && Unmanaged(s) == Unmanaged(old(rules))
                && (forall r <- old(rules) | !Stale(r, desired) :: r in s)
                && (forall r <- s :: r in old(rules))
    {
      hide Stale, StalePlaces, Unmanaged, After, Keep;
      ghost var before, started := rules, history;
      var places := StalePlaces(rules, desired, |rules|);
      var k: nat := |places|;
      assert rules == After(before, desired, places, k) by { AfterNone(before, desired, places); }
      while k > 0
        invariant k <= |places| && |places| - k <= limit && places == StalePlaces(before, desired, |before|)
        invariant rules == After(before, desired, places, k)
        invariant started <= history
        invariant forall s <- history[|started|..] ::
                    && Unmanaged(s) == Unmanaged(before)
                    && (forall r <- before | !Stale(r, desired) :: r in s)
                    && (forall r <- s :: r in before)
      {
        if |places| - k == limit {
          return false;
        }
        DeleteNext(before, desired, k - 1);
        AfterKeeps(before, desired, places, k - 1);
        rules := Without(rules, places[k - 1]);
        ghost var earlier := history;
        history := history + [rules];
        assert history[|started|..] == earlier[|started|..] + [rules];
        k := k - 1;
      }
      AllDeleted(before, desired);
      return true;
    }

    /**
     Adds what is missing, checks that it is there, and only then removes what is stale.
     `attempts` says what each addition does, `limit` how many deletions succeed.
     */
    method Configure(
      loopback: bool, sources: seq<string>, ports: seq<Exposed>, attempts: Answers, limit: nat)
      returns (error: Option<Error>)
      modifies this
      // Every state on the way keeps foreign rules, and rules wanted before and after.
      ensures old(history) <= history
      ensures var desired := if loopback then {} else Desired(sources, ports);
              forall s <- history[|old(history)|..] :: Sound(s, old(rules), desired)
      ensures Unmanaged(rules) == Unmanaged(old(rules))
      // Success leaves exactly the desired managed comments.
      ensures error.None? && loopback && !active ==> rules == old(rules)
      ensures error.None? && loopback && active ==> ManagedComments(rules) == {}
      ensures error.None? && !loopback ==> ManagedComments(rules) == Desired(sources, ports)
      // Refusals change nothing.
      ensures error == Some(NoSources) <==> !loopback && sources == []
      ensures error == Some(Inactive) <==> !loopback && sources != [] && !active
      ensures error == Some(Conflict) <==>
                !loopback && sources != [] && active
                && exists r <- old(rules), e <- ports ::
                     Contains(r.line, e.port + "/tcp") && Contains(r.line, "ALLOW IN")
                     && !(COMMENT_PREFIX <= r.comment)
      ensures error in {Some(NoSources), Some(Inactive), Some(Conflict)} ==>
              rules == old(rules) && history == old(history)
      // What fails is told, and nothing fails otherwise.
      ensures error.Some? && error.value.CannotInstall? ==>
                FirstRefused(error.value.source, sources, ports, ManagedComments(old(rules)), attempts)
      ensures error.Some? && error.value.NotRetained? ==>
                error.value.comments == Desired(sources, ports) - ManagedComments(rules) != {}
      ensures error == Some(CannotRemove) ==>
                limit < |Unwanted(old(rules), if loopback then {} else Desired(sources, ports))|
      ensures error.None? <==>
              if loopback then !active || |Unwanted(old(rules), {})| <= limit
              else
                && sources != [] && active
                && !(exists r <- old(rules), e <- ports ::
                       Contains(r.line, e.port + "/tcp") && Contains(r.line, "ALLOW IN")
                       && !(COMMENT_PREFIX <= r.comment))
                && (forall s <- sources :: !SomeRefused(s, ports, ManagedComments(old(rules)), attempts))
                && Desired(sources, ports) <= ManagedComments(old(rules))
                                              + Added(sources, ports, ManagedComments(old(rules)), attempts)
                && |Unwanted(old(rules), Desired(sources, ports))| <= limit
    {
      hide Conflicts, Sound, Managed, Stale, Unmanaged, Keep, ManagedComments, Desired, Unwanted, StalePlaces, Added,
        SomeRefused, Contains;
      ghost var before := rules;
      if loopback {
        if active {
          var ok := RemoveManagedRules({}, limit);
          DeletionsNeeded(before, {});
          RemovalIsSound(history[|old(history)|..], before, before, {});
          KeepUnmanaged(before, {});
          PartUnmanaged(before, {}, limit);
          if !ok { return Some(CannotRemove); }
          KeepLeavesDesired(before, {});
          return None;
        }
        return None;
      }
      if sources == [] { return Some(NoSources); }
      if !active { return Some(Inactive); }
      var managed := ManagedComments(rules);
      ConflictsAreUnmanaged(rules, ports);
      if exists r <- rules :: Conflicts(r, ports, managed) { return Some(Conflict); }
      ghost var desired := Desired(sources, ports);
      var failed := AddMissing(sources, ports, managed, attempts);
      AdditionsAreSound(history[|old(history)|..], before, desired);
      if failed.Some? {
        return Some(CannotInstall(failed.value));
      }
      DeletionsNeeded(rules, desired);
      var missing := Desired(sources, ports) - ManagedComments(rules);
      if missing != {} { return Some(NotRetained(missing)); }
      NothingMissing(desired, ManagedComments(rules));
      ghost var added, mid := rules, history;
      var ok := RemoveManagedRules(Desired(sources, ports), limit);
      RemovalIsSound(history[|mid|..], added, before, desired);
      assert history[|old(history)|..] == mid[|old(history)|..] + history[|mid|..];
      KeepUnmanaged(added, desired);
      PartUnmanaged(added, desired, limit);
      if !ok { return Some(CannotRemove); }
      KeepLeavesDesired(added, desired);
      return None;
    }

    /** The loops over sources and ports. */
    method AddMissing(sources: seq<string>, ports: seq<Exposed>, managed: set<string>, attempts: Answers)
      returns (failed: Option<string>)
      requires managed == ManagedComments(rules)
      modifies this
      ensures failed.Some? ==> FirstRefused(failed.value, sources, ports, managed, attempts)
      ensures failed.None? ==>
                && (forall s <- sources :: !SomeRefused(s, ports, managed, attempts))
                && ManagedComments(rules) == managed + Added(sources, ports, managed, attempts)
                && Unwanted(rules, Desired(sources, ports)) == Unwanted(old(rules), Desired(sources, ports))
      ensures old(history) <= history
      ensures OnlyAdded(rules, old(rules))
      ensures forall s <- history[|old(history)|..] :: OnlyAdded(s, old(rules))
    {
      hide OnlyAdded, CommentOf, Insert, Added, AddedFor, ManagedComments, Unwanted, Desired;
      ghost var before, started := rules, history;
      ghost var desired := Desired(sources, ports);
      NothingAdded(rules);
      assert Added(sources[..0], ports, managed, attempts) == {} by { NothingYet(sources, ports, managed, attempts); }
      for i := 0 to |sources|
        invariant started <= history && OnlyAdded(rules, before)
        invariant forall s <- history[|started|..] :: OnlyAdded(s, before)
        invariant forall k | 0 <= k < i :: !SomeRefused(sources[k], ports, managed, attempts)
        invariant ManagedComments(rules) == managed + Added(sources[..i], ports, managed, attempts)
        invariant Unwanted(rules, desired) == Unwanted(before, desired)
      {
        ghost var had := Added(sources[..i], ports, managed, attempts);
        AddedForNone(sources[i], ports, managed, attempts);
        for j := 0 to |ports|
          invariant started <= history && OnlyAdded(rules, before)
          invariant forall s <- history[|started|..] :: OnlyAdded(s, before)
          invariant forall l | 0 <= l < j ::
                      CommentOf(sources[i], ports[l]) in managed || !attempts(sources[i], ports[l]).Refused?
          invariant ManagedComments(rules) == managed + had + AddedFor(sources[i], ports[..j], managed, attempts)
          invariant Unwanted(rules, desired) == Unwanted(before, desired)
        {
          var comment := CommentOf(sources[i], ports[j]);
          AddedForOneMore(sources[i], ports, j, managed, attempts);
          if comment in managed {
            continue;
          }
          match attempts(sources[i], ports[j]) {
            case Refused =>
              assert SomeRefused(sources[i], ports, managed, attempts);
              return Some(sources[i]);
            case Ignored =>
            case Inserted(place, line) =>
              CommentIsManaged(sources[i], ports[j], line);
              OneMoreAdded(rules, before, place, Rule(comment, line));
              RequestInserted(rules, place, line, sources[i], ports[j], sources, ports);
              rules := Insert(rules, place, Rule(comment, line));
              history := history + [rules];
          }
        }
        AddedOneMore(sources, i, ports, managed, attempts);
        assert ports[..|ports|] == ports;
      }
      assert sources[..|sources|] == sources;
      return None;
    }
  }

  lemma NothingYet(sources: seq<string>, ports: seq<Exposed>, managed: set<string>, attempts: Answers)
    ensures Added(sources[..0], ports, managed, attempts) == {}
  {
  }

  lemma AddedForNone(source: string, ports: seq<Exposed>, managed: set<string>, attempts: Answers)
    ensures AddedFor(source, ports[..0], managed, attempts) == {}
  {
  }

  /** What is in the way is an allow rule on one of the ports that is not one of the managed rules. */
  lemma ConflictsAreUnmanaged(rules: seq<Rule>, ports: seq<Exposed>)
    ensures (exists r <- rules :: Conflicts(r, ports, ManagedComments(rules)))
       <==> exists r <- rules, e <- ports ::
              Contains(r.line, e.port + "/tcp") && Contains(r.line, "ALLOW IN") && !(COMMENT_PREFIX <= r.comment)
  {
    hide Contains;
    forall r <- rules
      ensures r.comment in ManagedComments(rules) <==> COMMENT_PREFIX <= r.comment
    {
      if Managed(r) { assert COMMENT_PREFIX <= r.comment; }
      if COMMENT_PREFIX <= r.comment { assert Managed(r); }
    }
  }

  lemma NothingMissing(desired: set<string>, observed: set<string>)
    requires desired - observed == {}
    ensures desired <= observed
  {
    forall c <- desired ensures c in observed { assert c !in desired - observed; }
  }

  lemma AfterNone(rules: seq<Rule>, desired: set<string>, places: seq<nat>)
    requires forall p <- places :: p < |rules|
    ensures After(rules, desired, places, |places|) == rules
  {
  }

  ghost predicate OnlyAdded(rules: seq<Rule>, before: seq<Rule>) {
    Unmanaged(rules) == Unmanaged(before) && forall r <- before :: r in rules
  }

  lemma NothingAdded(rules: seq<Rule>)
    ensures OnlyAdded(rules, rules)
  {
  }

  lemma OneMoreAdded(rules: seq<Rule>, before: seq<Rule>, place: nat, r: Rule)
    requires OnlyAdded(rules, before) && Managed(r)
    ensures OnlyAdded(Insert(rules, place, r), before)
  {
    hide Insert, Managed, Unmanaged;
    InsertIsSound(rules, before, {}, place, r);
  }

  lemma AdditionsAreSound(states: seq<seq<Rule>>, before: seq<Rule>, desired: set<string>)
    requires forall s <- states :: OnlyAdded(s, before)
    ensures forall s <- states :: Sound(s, before, desired)
  {
  }

  lemma RemovalIsSound(states: seq<seq<Rule>>, start: seq<Rule>, before: seq<Rule>, desired: set<string>)
    requires OnlyAdded(start, before) && desired <= ManagedComments(start)
    requires forall s <- states ::
             Unmanaged(s) == Unmanaged(start) && (forall r <- start | !Stale(r, desired) :: r in s)
    ensures forall s <- states :: Sound(s, before, desired)
  {
    hide Unmanaged;
    forall s <- states
      ensures desired <= ManagedComments(s)
    {
      forall c <- desired
        ensures c in ManagedComments(s)
      {
        var r :| r in start && Managed(r) && r.comment == c;
        assert !Stale(r, desired) && r in s;
      }
    }
  }

  lemma KeepUnmanaged(rules: seq<Rule>, desired: set<string>)
    ensures Unmanaged(Keep(rules, desired)) == Unmanaged(rules)
  {
    UnmanagedKept(rules, desired);
  }

  lemma PartUnmanaged(rules: seq<Rule>, desired: set<string>, limit: nat)
    ensures var places := StalePlaces(rules, desired, |rules|);
            limit < |places| ==> Unmanaged(After(rules, desired, places, |places| - limit)) == Unmanaged(rules)
  {
    hide Unmanaged, After, StalePlaces;
    var places := StalePlaces(rules, desired, |rules|);
    if limit < |places| { AfterKeeps(rules, desired, places, |places| - limit); }
  }

  /** What stays of the managed rules is what is desired, once all of that is there. */
  lemma KeepLeavesDesired(rules: seq<Rule>, desired: set<string>)
    requires desired <= ManagedComments(rules)
    ensures ManagedComments(Keep(rules, desired)) == desired
  {
    hide Keep, Managed;
    KeepMembers(rules, desired);
    var kept := Keep(rules, desired);
    forall c <- desired
      ensures c in ManagedComments(kept)
    {
      var r :| r in rules && Managed(r) && r.comment == c;
      assert r in kept;
    }
  }
}
