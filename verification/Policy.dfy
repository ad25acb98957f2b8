/** Policy rules in a fixed order, the routing floor, and the pipeline's independent check of it. */
module Policy {
  import opened Tokens
  import C = Conflicts

  datatype Action = Allow | Transform | RouteLocal | Block

  datatype Rule = Rule(
    name: string,
    priority: int,
    action: Action,
    destination: string,
    entities: set<string>,
    applications: set<string>,
    minScore: real
  )

  datatype Finding = Finding(entityType: string, score: real)

  /** What one request brings: its application and everything inspection found in it. */
  datatype Request = Request(application: string, findings: seq<Finding>)

  datatype LocalRouting = Off | Detected | All

  datatype Decision = Decision(action: Action, destination: string, ruleName: string, matched: set<string>)

  // ---------- Matching and ordering ----------

  function Present(findings: seq<Finding>, minScore: real): set<string> {
    set f | f in findings && f.score >= minScore :: f.entityType
  }

  function MatchedBy(r: Rule, q: Request): set<string> { r.entities * Present(q.findings, r.minScore) }

  predicate Matches(r: Rule, q: Request) {
    && (r.applications != {} ==> q.application in r.applications)
    && (r.entities != {} ==> MatchedBy(r, q) != {})
  }

  /** Higher priority first; at equal priority blocks first, then by name. */
  predicate Before(a: Rule, b: Rule) {
    if a.priority != b.priority then a.priority > b.priority
    else if a.action.Block? != b.action.Block? then a.action.Block?
    else C.TextBefore(a.name, b.name)
  }

  lemma BeforeOrders(a: Rule, b: Rule, c: Rule)
    ensures !Before(a, a) && !(Before(a, b) && Before(b, a))
    ensures Before(a, b) && Before(b, c) ==> Before(a, c)
    ensures a.name != b.name ==> Before(a, b) || Before(b, a)
  {
    C.TextOrder(a.name, b.name, c.name);
    hide C.TextBefore;
  }

  function Insert(sorted: seq<Rule>, r: Rule): (s: seq<Rule>)
    ensures multiset(s) == multiset(sorted) + multiset{r}
  {
    if sorted == [] then [r]
    else if Before(r, sorted[0]) then [r] + sorted
    else
      assert sorted == [sorted[0]] + sorted[1..];
      [sorted[0]] + Insert(sorted[1..], r)
  }

  function Sorted(rules: seq<Rule>): (s: seq<Rule>)
    ensures multiset(s) == multiset(rules)
  {
    if rules == [] then []
    else
      var last := |rules| - 1;
      assert rules == rules[..last] + [rules[last]];
      Insert(Sorted(rules[..last]), rules[last])
  }

  ghost predicate InOrder(rules: seq<Rule>) { forall i, j | 0 <= i < j < |rules| :: !Before(rules[j], rules[i]) }

  lemma {:induction false} InsertKeepsOrder(sorted: seq<Rule>, r: Rule)
    requires InOrder(sorted)
    ensures InOrder(Insert(sorted, r))
  {
    hide Before;
    if sorted != [] {
      var s := Insert(sorted, r);
      if Before(r, sorted[0]) {
        forall j | 0 <= j < |sorted|
          ensures !Before(sorted[j], r)
        {
          BeforeOrders(r, sorted[0], sorted[j]);
          BeforeOrders(sorted[j], r, sorted[0]);
        }
      } else {
        InsertKeepsOrder(sorted[1..], r);
        var rest := Insert(sorted[1..], r);
        forall j | 0 <= j < |rest|
          ensures !Before(rest[j], sorted[0])
        {
          assert rest[j] in multiset(rest);
          assert rest[j] == r || rest[j] in sorted[1..];
        }
      }
    }
  }

  lemma {:induction false} SortedInOrder(rules: seq<Rule>)
    ensures InOrder(Sorted(rules))
  {
    if rules != [] {
      SortedInOrder(rules[..|rules| - 1]);
      InsertKeepsOrder(Sorted(rules[..|rules| - 1]), rules[|rules| - 1]);
    }
  }

  // ---------- The engine ----------

  datatype PolicyError = NoRules | NameConflict | AlreadyLocal

  datatype PolicyEngine = PolicyEngine(rules: seq<Rule>, defaultDestination: string, mode: LocalRouting)

  function MakeEngine(rules: seq<Rule>, defaultDestination: string, mode: LocalRouting): Result<PolicyEngine, PolicyError> {
    if rules == [] then Err(NoRules) else Ok(PolicyEngine(Sorted(rules), defaultDestination, mode))
  }

  predicate UniqueNames(rules: seq<Rule>) { forall i, j | 0 <= i < j < |rules| :: rules[i].name != rules[j].name }

  function WithRules(e: PolicyEngine, more: seq<Rule>): Result<PolicyEngine, PolicyError> {
    if !UniqueNames(e.rules + more) then Err(NameConflict)
    else MakeEngine(e.rules + more, e.defaultDestination, e.mode)
  }

  function WithLocalRouting(e: PolicyEngine, mode: LocalRouting): Result<PolicyEngine, PolicyError> {
    if mode.Off? then Ok(e)
    else if !e.mode.Off? then Err(AlreadyLocal)
    else MakeEngine(e.rules, e.defaultDestination, mode)
  }

  function Target(e: PolicyEngine, r: Rule): string { if r.destination != "" then r.destination else e.defaultDestination }

  function Decide(e: PolicyEngine, r: Rule, q: Request): Decision {
    Decision(r.action, Target(e, r), r.name, if r.entities == {} then {} else MatchedBy(r, q))
  }

  const DENY := Decision(Block, "", "__implicit_deny__", {})

  method FirstMatch(e: PolicyEngine, q: Request) returns (d: Decision)
    ensures d == BaseDecision(e, q)
  {
    var i := 0;
    assert e.rules[0..] == e.rules;
    while i < |e.rules|
      invariant 0 <= i <= |e.rules|
      invariant BaseDecision(e, q) == FirstFrom(e, e.rules[i..], q)
    {
      assert e.rules[i..][1..] == e.rules[i + 1..];
      if Matches(e.rules[i], q) {
        return Decide(e, e.rules[i], q);
      }
      i := i + 1;
    }
    return DENY;
  }

  function FirstFrom(e: PolicyEngine, rules: seq<Rule>, q: Request): Decision {
    if rules == [] then DENY
    else if Matches(rules[0], q) then Decide(e, rules[0], q)
    else FirstFrom(e, rules[1..], q)
  }

  function BaseDecision(e: PolicyEngine, q: Request): Decision { FirstFrom(e, e.rules, q) }

  const LOCAL := "local"

  function EntityTypes(findings: seq<Finding>): set<string> { set f | f in findings :: f.entityType }

  predicate RequiresLocal(mode: LocalRouting, q: Request) { mode.All? || (mode.Detected? && q.findings != []) }

  function ModeName(mode: LocalRouting): string {
    match mode
    case Off => "local-routing:off"
    case Detected => "local-routing:detected"
    case All => "local-routing:all"
  }

  function ApplyLocalRouting(mode: LocalRouting, d: Decision, q: Request): Decision {
    if d.action.Block? || d.destination == LOCAL || !RequiresLocal(mode, q) then d
    else Decision(RouteLocal, LOCAL, ModeName(mode), EntityTypes(q.findings))
  }

  function Evaluate(e: PolicyEngine, q: Request): Decision { ApplyLocalRouting(e.mode, BaseDecision(e, q), q) }

  function Selectable(e: PolicyEngine): set<string> { set r | r in e.rules && !r.action.Block? :: Target(e, r) }

  function RequiredDestinations(e: PolicyEngine): set<string> {
    match e.mode
    case Off => Selectable(e)
    case Detected => Selectable(e) + {LOCAL}
    case All => {LOCAL}
  }

  // ---------- The decision, without any order of evaluation ----------

  /** `r` matches and no other matching rule comes before it. */
  ghost predicate Best(rules: seq<Rule>, r: Rule, q: Request) {
    r in rules && Matches(r, q) && forall other | other in rules && Matches(other, q) :: !Before(other, r)
  }

  lemma {:induction false} FirstIsBest(e: PolicyEngine, rules: seq<Rule>, q: Request)
    requires InOrder(rules)
    ensures (forall r | r in rules :: !Matches(r, q)) ==> FirstFrom(e, rules, q) == DENY
    ensures (exists r | r in rules :: Matches(r, q)) ==>
              exists r :: Best(rules, r, q) && FirstFrom(e, rules, q) == Decide(e, r, q)
  {
    hide Before, Matches, Decide;
    if rules != [] {
      var first, rest := rules[0], rules[1..];
      assert forall r :: r in rules <==> r == first || r in rest;
      if Matches(first, q) {
        BeforeOrders(first, first, first);
        assert Best(rules, first, q);
      } else {
        FirstIsBest(e, rest, q);
        if exists r | r in rules :: Matches(r, q) {
          var r :| Best(rest, r, q) && FirstFrom(e, rest, q) == Decide(e, r, q);
          assert Best(rules, r, q);
        }
      }
    }
  }

  lemma OneBest(rules: seq<Rule>, a: Rule, b: Rule, q: Request)
    requires UniqueNames(rules) && Best(rules, a, q) && Best(rules, b, q)
    ensures a == b
  {
    hide Before, Matches;
    BeforeOrders(a, b, a);
    var i :| 0 <= i < |rules| && rules[i] == a;
    var j :| 0 <= j < |rules| && rules[j] == b;
  }

  /** The decision depends on which rules there are, never on the order they were written in. */
  lemma PermutationInvariant(a: PolicyEngine, b: PolicyEngine, q: Request)
    requires InOrder(a.rules) && InOrder(b.rules) && multiset(a.rules) == multiset(b.rules) && UniqueNames(a.rules)
    requires a.defaultDestination == b.defaultDestination && a.mode == b.mode
    ensures Evaluate(a, q) == Evaluate(b, q)
  {
    hide Before, Matches, ApplyLocalRouting, InOrder;
    forall r
      ensures r in a.rules <==> r in b.rules
    {
      assert r in multiset(a.rules) <==> r in multiset(b.rules);
    }
    FirstIsBest(a, a.rules, q);
    FirstIsBest(b, b.rules, q);
    if exists r | r in a.rules :: Matches(r, q) {
      var x :| Best(a.rules, x, q) && BaseDecision(a, q) == Decide(a, x, q);
      var y :| Best(b.rules, y, q) && BaseDecision(b, q) == Decide(b, y, q);
      assert Best(a.rules, y, q);
      OneBest(a.rules, x, y, q);
    }
  }

  /** A matching block is only ever outranked by a strictly higher priority. */
  lemma BlockWins(e: PolicyEngine, q: Request, block: Rule)
    requires InOrder(e.rules) && block in e.rules && block.action.Block? && Matches(block, q)
    ensures Evaluate(e, q).action.Block? ||
            exists r :: r in e.rules && r.priority > block.priority && Matches(r, q) && BaseDecision(e, q) == Decide(e, r, q)
  {
    hide Matches;
    FirstIsBest(e, e.rules, q);
    var r :| Best(e.rules, r, q) && BaseDecision(e, q) == Decide(e, r, q);
    assert !Before(block, r);
  }

  /** The floor never weakens a block, and moves everything it must to the one local destination. */
  lemma FloorHolds(e: PolicyEngine, q: Request)
    ensures BaseDecision(e, q).action.Block? ==> Evaluate(e, q) == BaseDecision(e, q)
    ensures !BaseDecision(e, q).action.Block? ==> !Evaluate(e, q).action.Block?
    ensures !Evaluate(e, q).action.Block? && RequiresLocal(e.mode, q) ==> Evaluate(e, q).destination == LOCAL
    ensures !RequiresLocal(e.mode, q) || BaseDecision(e, q).destination == LOCAL ==> Evaluate(e, q) == BaseDecision(e, q)
  {
    hide BaseDecision;
  }

  lemma {:induction false} FirstSelectable(e: PolicyEngine, rules: seq<Rule>, q: Request)
    requires forall r | r in rules :: r in e.rules
    ensures !FirstFrom(e, rules, q).action.Block? ==> FirstFrom(e, rules, q).destination in Selectable(e)
  {
    hide Matches;
    if rules != [] {
      assert rules[0] in rules;
      FirstSelectable(e, rules[1..], q);
    }
  }

  /** No request can select a destination that start-up did not require, whatever the engine was composed of. */
  lemma DestinationsRequired(e: PolicyEngine, q: Request)
    ensures !Evaluate(e, q).action.Block? ==> Evaluate(e, q).destination in RequiredDestinations(e)
  {
    FirstSelectable(e, e.rules, q);
    hide FirstFrom, Selectable;
  }

  // ---------- Composition ----------

  ghost predicate WellMade(e: PolicyEngine) { InOrder(e.rules) && UniqueNames(e.rules) }

  lemma UniqueAgain(a: seq<Rule>, b: seq<Rule>)
    requires UniqueNames(a) && multiset(a) == multiset(b)
    ensures UniqueNames(b)
  {
    forall i, j | 0 <= i < j < |b|
      ensures b[i].name != b[j].name
    {
      var x, y := b[i], b[j];
      assert x in multiset(b) && y in multiset(b);
      assert x in a && y in a;
      if x == y {
        TwiceIn(b, i, j);
        OnceIn(a, x);
      } else {
        var k :| 0 <= k < |a| && a[k] == x;
        var l :| 0 <= l < |a| && a[l] == y;
      }
    }
  }

  lemma TwiceIn(s: seq<Rule>, i: nat, j: nat)
    requires i < j < |s| && s[i] == s[j]
    ensures multiset(s)[s[i]] >= 2
  {
    assert s == s[..j] + [s[j]] + s[j + 1..];
    assert s[i] in s[..j];
    assert s[i] in multiset(s[..j]);
  }

  lemma {:induction false} OnceIn(s: seq<Rule>, r: Rule)
    requires UniqueNames(s)
    ensures multiset(s)[r] <= 1
  {
    if s != [] {
      assert s == [s[0]] + s[1..];
      OnceIn(s[1..], r);
      assert forall k | 0 <= k < |s[1..]| :: s[1..][k] == s[k + 1];
    }
  }

  lemma MadeWell(rules: seq<Rule>, destination: string, mode: LocalRouting)
    requires UniqueNames(rules) && rules != []
    ensures MakeEngine(rules, destination, mode).Ok? && WellMade(MakeEngine(rules, destination, mode).value)
    ensures multiset(MakeEngine(rules, destination, mode).value.rules) == multiset(rules)
  {
    SortedInOrder(rules);
    UniqueAgain(rules, Sorted(rules));
  }

  /** The mode travels with the policy: filters may be composed before or after it, to the same decisions. */
  lemma CompositionCommutes(e: PolicyEngine, more: seq<Rule>, mode: LocalRouting, q: Request)
    requires WellMade(e) && e.rules != [] && e.mode.Off? && UniqueNames(e.rules + more)
    ensures WithRules(e, more).Ok? && WithLocalRouting(WithRules(e, more).value, mode).Ok?
    ensures WithLocalRouting(e, mode).Ok? && WithRules(WithLocalRouting(e, mode).value, more).Ok?
    ensures Evaluate(WithLocalRouting(WithRules(e, more).value, mode).value, q)
            == Evaluate(WithRules(WithLocalRouting(e, mode).value, more).value, q)
  {
    hide Before, Evaluate, Sorted, InOrder, UniqueNames;
    MadeWell(e.rules + more, e.defaultDestination, e.mode);
    var first := WithRules(e, more).value;
    MadeWell(first.rules, e.defaultDestination, mode);
    MadeWell(e.rules, e.defaultDestination, mode);
    var second := WithLocalRouting(e, mode).value;
    assert multiset(second.rules + more) == multiset(e.rules + more);
    UniqueAgain(e.rules + more, second.rules + more);
    MadeWell(second.rules + more, second.defaultDestination, second.mode);
    PermutationInvariant(WithLocalRouting(first, mode).value, WithRules(second, more).value, q);
  }

  // ---------- The pipeline's own check ----------

  /** A provider is known by identity; several names may share one object. */
  type Providers = map<string, nat>

  function EntityCounts(findings: seq<Finding>): (counts: map<string, nat>)
    ensures counts.Keys == EntityTypes(findings)
  {
    map t | t in EntityTypes(findings) :: CountOf(findings, t)
  }

  function Types(findings: seq<Finding>): seq<string> { seq(|findings|, i requires 0 <= i < |findings| => findings[i].entityType) }

  /** How often a type was found. */
  function CountOf(findings: seq<Finding>, t: string): (n: nat)
    ensures n == multiset(Types(findings))[t]
  {
    assert findings != [] ==> Types(findings) == [findings[0].entityType] + Types(findings[1..]);
    if findings == [] then 0 else (if findings[0].entityType == t then 1 else 0) + CountOf(findings[1..], t)
  }

  datatype Outcome = Blocked | NotConfigured | Violation | Sent(provider: nat)

  function Lookup(providers: Providers, name: string): Option<nat> { if name in providers then Some(providers[name]) else None }

  lemma CountsSeeFindings(findings: seq<Finding>)
    ensures EntityCounts(findings) != map[] <==> findings != []
  {
    if findings != [] {
      assert findings[0] in findings;
      assert findings[0].entityType in EntityCounts(findings);
    }
  }

  /** Which outcome a decision may have: a check that fires exactly on a request that must stay local and would not. */
  ghost predicate Routed(o: Outcome, providers: Providers, mode: LocalRouting, d: Decision, q: Request) {
    && (o.Blocked? <==> d.action.Block?)
    && (o.NotConfigured? <==> !d.action.Block? && d.destination !in providers)
    && (o.Violation? <==>
          && !d.action.Block? && d.destination in providers
          && RequiresLocal(mode, q) && !(LOCAL in providers && providers[d.destination] == providers[LOCAL]))
    && (o.Sent? ==> d.destination in providers && o.provider == providers[d.destination])
  }

  /** Picks the provider and checks the object about to receive the request, by the pipeline's own reading of the mode. */
  method Route(providers: Providers, mode: LocalRouting, d: Decision, q: Request) returns (o: Outcome)
    ensures Routed(o, providers, mode, d, q)
    ensures o.Sent? && RequiresLocal(mode, q) ==> LOCAL in providers && o.provider == providers[LOCAL]
  {
    CountsSeeFindings(q.findings);
    if d.action.Block? {
      return Blocked;
    }
    var provider := Lookup(providers, d.destination);
    if provider.None? {
      return NotConfigured;
    }
    var counts := EntityCounts(q.findings);
    var mustBeLocal := mode.All? || (mode.Detected? && counts != map[]);
    if mustBeLocal && provider != Lookup(providers, LOCAL) {
      return Violation;
    }
    return Sent(provider.value);
  }

  /** With one mode in both places the check never fires, and with every required destination configured nothing is missing. */
  lemma TripwireUnreachable(e: PolicyEngine, providers: Providers, q: Request, o: Outcome)
    requires Routed(o, providers, e.mode, Evaluate(e, q), q)
    ensures o != Violation
    ensures RequiredDestinations(e) <= providers.Keys ==> o.Blocked? || o.Sent?
  {
    FloorHolds(e, q);
    DestinationsRequired(e, q);
    hide Evaluate, RequiredDestinations;
  }

  /** Whatever the engine decided, the check alone keeps an external provider from a request that must stay local; and it
      stops nothing else. */
  lemma TripwireCatches(providers: Providers, mode: LocalRouting, d: Decision, q: Request, o: Outcome)
    requires Routed(o, providers, mode, d, q) && !d.action.Block? && d.destination in providers
    ensures o.Sent? <==> (RequiresLocal(mode, q) ==> LOCAL in providers && providers[d.destination] == providers[LOCAL])
    ensures o.Sent? || o.Violation?
  {
  }
}
