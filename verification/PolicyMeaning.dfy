/** What a policy decides, in the fields of its rules and of the findings, without the order its engine keeps them in. */
module PolicyMeaning {
  import opened Policy
  import C = Conflicts

  /** A finding makes rule `r` react. */
  ghost predicate Reacts(r: Rule, f: Finding) { f.entityType in r.entities && f.score >= r.minScore }

  ghost predicate Applies(r: Rule, q: Request) {
    && (q.application in r.applications || r.applications == {})
    && (r.entities == {} || exists f :: f in q.findings && Reacts(r, f))
  }

  ghost predicate Precedes(a: Rule, b: Rule) {
    || a.priority > b.priority
    || (a.priority == b.priority && a.action == Block && b.action != Block)
    || (a.priority == b.priority && (a.action == Block <==> b.action == Block) && C.Alphabetical(a.name, b.name))
  }

  /** The rule a request is decided by. */
  ghost predicate Rules(e: PolicyEngine, r: Rule, q: Request) {
    r in e.rules && Applies(r, q) && forall other | other in e.rules && other != r && Applies(other, q) :: Precedes(r, other)
  }

  ghost predicate Speaks(e: PolicyEngine, r: Rule, q: Request, d: Decision) {
    && d.action == r.action && d.ruleName == r.name
    && (r.destination != "" ==> d.destination == r.destination)
    && (r.destination == "" ==> d.destination == e.defaultDestination)
    && forall t :: t in d.matched <==> exists f :: f in q.findings && f.entityType == t && Reacts(r, f)
  }

  ghost predicate Denied(d: Decision) {
    d.action == Block && d.destination == "" && d.ruleName == "__implicit_deny__" && d.matched == {}
  }

  /** A request moved to the local destination, whatever its own rule said. */
  ghost predicate Moved(mode: LocalRouting, q: Request, d: Decision) {
    && d.action == RouteLocal && d.destination == "local"
    && (mode == Off ==> d.ruleName == "local-routing:off")
    && (mode == Detected ==> d.ruleName == "local-routing:detected")
    && (mode == All ==> d.ruleName == "local-routing:all")
    && forall t :: t in d.matched <==> exists f :: f in q.findings && f.entityType == t
  }

  ghost predicate MustMove(mode: LocalRouting, q: Request, base: Decision) {
    base.action != Block && base.destination != "local" && (mode == All || (mode == Detected && |q.findings| > 0))
  }

  lemma MatchedExactly(r: Rule, q: Request, t: string)
    ensures t in MatchedBy(r, q) <==> exists f :: f in q.findings && f.entityType == t && Reacts(r, f)
  {
  }

  lemma MatchesExactly(r: Rule, q: Request)
    ensures Matches(r, q) <==> Applies(r, q)
  {
    hide MatchedBy;
    forall t
      ensures t in MatchedBy(r, q) <==> exists f :: f in q.findings && f.entityType == t && Reacts(r, f)
    {
      MatchedExactly(r, q, t);
    }
    if f :| f in q.findings && Reacts(r, f) {
      assert f.entityType in MatchedBy(r, q);
    }
    if MatchedBy(r, q) != {} {
      var t :| t in MatchedBy(r, q);
    }
  }

  lemma BeforeExactly(a: Rule, b: Rule)
    ensures Before(a, b) <==> Precedes(a, b)
  {
    C.TextExactly(a.name, b.name);
    hide C.Alphabetical, C.TextBefore;
  }

  lemma RulesExactly(e: PolicyEngine, r: Rule, q: Request)
    requires WellMade(e)
    ensures Best(e.rules, r, q) <==> Rules(e, r, q)
  {
    hide Before, Precedes, Matches, Applies;
    MatchesExactly(r, q);
    forall other | other in e.rules
      ensures Matches(other, q) <==> Applies(other, q)
      ensures other != r && r in e.rules ==> (!Before(other, r) <==> Precedes(r, other))
      ensures !Before(r, r)
    {
      MatchesExactly(other, q);
      BeforeExactly(r, other);
      BeforeOrders(r, other, r);
      if other != r && r in e.rules {
        var i :| 0 <= i < |e.rules| && e.rules[i] == r;
        var j :| 0 <= j < |e.rules| && e.rules[j] == other;
      }
    }
  }

  lemma SpeaksExactly(e: PolicyEngine, r: Rule, q: Request)
    ensures Speaks(e, r, q, Decide(e, r, q))
  {
    hide MatchedBy;
    forall t
      ensures t in MatchedBy(r, q) <==> exists f :: f in q.findings && f.entityType == t && Reacts(r, f)
    {
      MatchedExactly(r, q, t);
    }
  }

  /** A request is decided by the one rule that applies to it and precedes every other that does, or denied when there is
      none. */
  lemma DecidedExactly(e: PolicyEngine, q: Request)
    requires WellMade(e)
    ensures (forall r | r in e.rules :: !Applies(r, q)) ==> Denied(BaseDecision(e, q))
    ensures (exists r | r in e.rules :: Applies(r, q)) ==>
              exists r :: Rules(e, r, q) && Speaks(e, r, q, BaseDecision(e, q))
  {
    hide Matches, Applies, Decide, Rules, Best, Speaks;
    FirstIsBest(e, e.rules, q);
    forall r
      ensures Matches(r, q) <==> Applies(r, q)
    {
      MatchesExactly(r, q);
    }
    if exists r | r in e.rules :: Applies(r, q) {
      var r :| Best(e.rules, r, q) && BaseDecision(e, q) == Decide(e, r, q);
      RulesExactly(e, r, q);
      SpeaksExactly(e, r, q);
    }
  }

  /** The routing floor moves a request exactly when it must stay local and would not, and touches nothing else. */
  lemma FloorExactly(e: PolicyEngine, q: Request)
    ensures !MustMove(e.mode, q, BaseDecision(e, q)) ==> Evaluate(e, q) == BaseDecision(e, q)
    ensures MustMove(e.mode, q, BaseDecision(e, q)) ==> Moved(e.mode, q, Evaluate(e, q))
  {
    hide BaseDecision;
  }

  ghost predicate Names(e: PolicyEngine, r: Rule, name: string) {
    && r.action != Block
    && ((r.destination != "" && name == r.destination) || (r.destination == "" && name == e.defaultDestination))
  }

  /** Start-up asks for exactly the destinations that a rule can select, and for the local one as soon as a mode is on. */
  lemma RequiredExactly(e: PolicyEngine, name: string)
    ensures name in RequiredDestinations(e) <==>
              || (e.mode != Off && name == "local")
              || (e.mode != All && exists r :: r in e.rules && Names(e, r, name))
  {
  }

  /** Composing keeps exactly the rules of both parts, refuses names given twice, and keeps the mode and the default; a mode
      is applied once, and `Off` changes nothing. */
  lemma ComposedExactly(e: PolicyEngine, more: seq<Rule>, mode: LocalRouting)
    requires e.rules != []
    ensures WithRules(e, more).Ok? <==> forall i, j | 0 <= i < j < |e.rules + more| :: (e.rules + more)[i].name != (e.rules + more)[j].name
    ensures var r := WithRules(e, more);
            r.Ok? ==> multiset(r.value.rules) == multiset(e.rules) + multiset(more) && r.value.mode == e.mode
                      && r.value.defaultDestination == e.defaultDestination
    ensures WithLocalRouting(e, mode).Ok? <==> e.mode == Off || mode == Off
    ensures var r := WithLocalRouting(e, mode);
            r.Ok? ==> multiset(r.value.rules) == multiset(e.rules) && r.value.mode == (if mode == Off then e.mode else mode)
                      && r.value.defaultDestination == e.defaultDestination
    ensures mode == Off ==> WithLocalRouting(e, mode).value == e
    ensures WithRules(e, more).Err? ==> WithRules(e, more).error == NameConflict
    ensures WithLocalRouting(e, mode).Err? ==> WithLocalRouting(e, mode).error == AlreadyLocal
  {
  }
}
