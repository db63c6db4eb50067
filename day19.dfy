/**
 * Aplenty: machine parts with four ratings are sent through named workflows of conditional rules
 * until one accepts (`A`) or rejects (`R`) them; part 2 counts the accepted rating combinations
 * by splitting boxes of ratings along the rules' conditions.
 */
module Day19 {
  import opened Common
  import opened RatingSums

  datatype Op = LessThan | GreaterThan

  /** The comparison of `ComparisonOperation`: strict in both directions. */
  predicate Holds(op: Op, a: int, b: int)
  {
    match op
    case LessThan => a < b
    case GreaterThan => a > b
  }

  datatype Condition = Condition(param: char, op: Op, value: int)

  datatype MachinePart = MachinePart(params: map<char, int>)

  /** `Condition.isMet`: the named rating compared with the value; `None` where `getValue` throws. */
  function IsMet(c: Condition, part: MachinePart): (r: Option<bool>)
    ensures r.None? <==> c.param !in part.params
    ensures r == Some(true) ==> c.param in part.params && c.value != part.params[c.param]
    ensures r == Some(false) && c.op == LessThan ==> part.params[c.param] >= c.value
    ensures r == Some(false) && c.op == GreaterThan ==> part.params[c.param] <= c.value
  {
    if c.param in part.params then Some(Holds(c.op, part.params[c.param], c.value)) else None
  }

  /** A rule sends a part to `destination` when its condition is absent or met. */
  datatype Rule = Rule(destination: string, condition: Option<Condition>)

  predicate IsAcceptedRule(r: Rule) { r.destination == "A" }

  predicate IsRejectedRule(r: Rule) { r.destination == "R" }

  /** All rules lead to one destination. */
  predicate OneDestination(rules: seq<Rule>)
  {
    |rules| > 0 && forall i | 0 <= i < |rules| :: rules[i].destination == rules[0].destination
  }

  /** The distinct destinations: the keys of `groupBy(Rule::destination)`. */
  function Destinations(rules: seq<Rule>): set<string>
  {
    set i | 0 <= i < |rules| :: rules[i].destination
  }

  /**
   * `List<Rule>.simplified`: rules that all lead to one place become one unconditional rule;
   * any other list is kept as it is.
   */
  function SimplifiedRules(rules: seq<Rule>): (r: seq<Rule>)
    ensures OneDestination(rules) ==> r == [Rule(rules[0].destination, None)]
    ensures !OneDestination(rules) ==> r == rules
  {
    SingleDestination(rules);
    if |Destinations(rules)| == 1 then [Rule(rules[0].destination, None)] else rules
  }

  /** One distinct destination exactly when all rules lead to the same place. */
  lemma SingleDestination(rules: seq<Rule>)
    ensures |Destinations(rules)| == 1 <==> OneDestination(rules)
  {
    if OneDestination(rules) {
      assert Destinations(rules) == {rules[0].destination};
    } else if |rules| > 0 {
      var d := rules[0].destination;
      var i :| 0 <= i < |rules| && rules[i].destination != d;
      var e := rules[i].destination;
      assert {d, e} <= Destinations(rules);
      assert |{d, e}| == 2;
      SubsetSize({d, e}, Destinations(rules));
    } else {
      assert Destinations(rules) == {};
    }
  }

  lemma SubsetSize<T>(a: set<T>, b: set<T>)
    requires a <= b
    ensures |a| <= |b|
  {
    assert b == a + (b - a);
  }

  /** The outcome of `rules.first { it.condition?.isMet(part) != false }`. */
  datatype Pick = Picked(rule: Rule) | Throws

  /**
   * The first rule without a condition or with a met condition; `Throws` when there is none or a
   * condition asks for a rating the part lacks before one is found.
   */
  function FirstApplicable(rules: seq<Rule>, part: MachinePart): (r: Pick)
  {
    if rules == [] then Throws
    else
      match rules[0].condition
      case None => Picked(rules[0])
      case Some(c) =>
        match IsMet(c, part)
        case None => Throws
        case Some(met) => if met then Picked(rules[0]) else FirstApplicable(rules[1..], part)
  }

  /** The rule picked applies to the part, and every rule before it has a condition the part fails. */
  lemma {:induction false} FirstApplicablePicks(rules: seq<Rule>, part: MachinePart)
    requires FirstApplicable(rules, part).Picked?
    ensures var rule := FirstApplicable(rules, part).rule;
            exists i | 0 <= i < |rules| :: rules[i] == rule
              && (rule.condition.None? || IsMet(rule.condition.value, part) == Some(true))
              && forall j | 0 <= j < i :: rules[j].condition.Some? && IsMet(rules[j].condition.value, part) == Some(false)
  {
    var rule := FirstApplicable(rules, part).rule;
    if rules[0].condition.Some? && IsMet(rules[0].condition.value, part) == Some(false) {
      var rest := rules[1..];
      FirstApplicablePicks(rest, part);
      var i :| 0 <= i < |rest| && rest[i] == rule
                && (rule.condition.None? || IsMet(rule.condition.value, part) == Some(true))
                && forall j | 0 <= j < i :: rest[j].condition.Some? && IsMet(rest[j].condition.value, part) == Some(false);
      assert rules[i + 1] == rule;
      forall j | 0 <= j < i + 1
        ensures rules[j].condition.Some? && IsMet(rules[j].condition.value, part) == Some(false)
      {
        if j > 0 {
          assert rules[j] == rest[j - 1];
        }
      }
    } else {
      assert rules[0] == rule;
    }
  }

  /**
   * Simplifying a rule list never changes where a part goes when the original list picks a rule
   * for it (it may pick one where the original throws).
   */
  lemma SimplifiedRulesSamePick(rules: seq<Rule>, part: MachinePart)
    requires FirstApplicable(rules, part).Picked?
    ensures FirstApplicable(SimplifiedRules(rules), part).Picked?
    ensures FirstApplicable(SimplifiedRules(rules), part).rule.destination == FirstApplicable(rules, part).rule.destination
  {
    if OneDestination(rules) {
      FirstApplicablePicks(rules, part);
    }
  }

  datatype Workflow = Workflow(name: string, rules: seq<Rule>)

  /** The workflows by name (`associateBy(Workflow::name)`). */
  type Workflows = map<string, Workflow>

  /** Where sending a part ends up. */
  datatype Outcome = Accepted | Rejected | Fails | Unfinished

  /**
   * A part run through `rules` with at most `fuel` further jumps between workflows: the picked
   * rule accepts, rejects, or continues with the workflow it names. `Fails` stands for the
   * exceptions of `first` and `getValue`; `Unfinished` for running out of fuel (the source's
   * `while (true)` does not stop on cyclic workflows).
   */
  function EvalRules(M: Workflows, rules: seq<Rule>, part: MachinePart, fuel: nat): Outcome
    decreases fuel, 1
  {
    match FirstApplicable(rules, part)
    case Throws => Fails
    case Picked(rule) =>
      if IsAcceptedRule(rule) then Accepted
      else if IsRejectedRule(rule) then Rejected
      else if fuel == 0 then Unfinished
      else Evaluate(M, rule.destination, part, fuel - 1)
  }

  /** A part sent to the workflow called `name`. */
  function Evaluate(M: Workflows, name: string, part: MachinePart, fuel: nat): Outcome
    decreases fuel, 2
  {
    if name in M then EvalRules(M, M[name].rules, part, fuel) else Fails
  }

  /** `isAccepted`: start at `in` and follow the rules picked until `A` or `R`. */
  method IsAccepted(M: Workflows, part: MachinePart, fuel: nat) returns (o: Outcome)
    ensures o == Evaluate(M, "in", part, fuel)
  {
    var name := "in";
    var remaining := fuel;
    while true
      invariant Evaluate(M, name, part, remaining) == Evaluate(M, "in", part, fuel)
      decreases remaining
    {
      if name !in M {
        return Fails;
      }
      var workflow := M[name];
      var pick := FirstApplicable(workflow.rules, part);
      if pick.Throws? {
        return Fails;
      }
      var rule := pick.rule;
      if IsAcceptedRule(rule) {
        return Accepted;
      }
      if IsRejectedRule(rule) {
        return Rejected;
      }
      if remaining == 0 {
        return Unfinished;
      }
      name := rule.destination;
      remaining := remaining - 1;
    }
  }

  /** Once a run finishes, more fuel does not change its outcome. */
  lemma {:induction false} EvaluateMoreFuel(M: Workflows, name: string, part: MachinePart, fuel: nat, more: nat)
    requires fuel <= more && Evaluate(M, name, part, fuel) != Unfinished
    ensures Evaluate(M, name, part, more) == Evaluate(M, name, part, fuel)
    decreases fuel
  {
    if name in M {
      match FirstApplicable(M[name].rules, part)
      case Throws =>
      case Picked(rule) =>
        if !IsAcceptedRule(rule) && !IsRejectedRule(rule) {
          EvaluateMoreFuel(M, rule.destination, part, fuel - 1, more - 1);
        }
    }
  }

  /** A workflow with one unconditional rule: it only forwards parts elsewhere. */
  predicate IsTrivial(w: Workflow)
  {
    |w.rules| == 1 && w.rules[0].condition.None?
  }

  /** `associateBy(Workflow::name)`: every workflow under its name, a later one replacing an earlier namesake. */
  function AssociateBy(ws: seq<Workflow>): (M: Workflows)
    ensures forall w | w in ws :: w.name in M
    ensures forall n | n in M :: M[n].name == n && M[n] in ws
  {
    if ws == [] then map[] else AssociateBy(ws[..|ws| - 1])[ws[|ws| - 1].name := ws[|ws| - 1]]
  }

  /** The trivial workflows, in order (`filter { it.rules.size == 1 && ... }`). */
  function TrivialOnes(ws: seq<Workflow>): (r: seq<Workflow>)
    ensures forall w | w in r :: w in ws && IsTrivial(w)
    ensures forall w | w in ws && IsTrivial(w) :: w in r
  {
    if ws == [] then []
    else TrivialOnes(ws[..|ws| - 1]) + (if IsTrivial(ws[|ws| - 1]) then [ws[|ws| - 1]] else [])
  }

  /** The trivial workflows by name: `emptyWorkflows`. */
  function EmptyWorkflows(ws: seq<Workflow>): (E: Workflows)
    ensures forall n | n in E :: IsTrivial(E[n]) && E[n] in ws && E[n].name == n
    ensures forall w | w in ws && IsTrivial(w) :: w.name in E
  {
    AssociateBy(TrivialOnes(ws))
  }

  /** Every workflow of the map forwards unconditionally. */
  predicate AllTrivial(E: Workflows)
  {
    forall n | n in E :: IsTrivial(E[n])
  }

  /** A rule to a trivial workflow goes straight to that workflow's destination, under its own condition. */
  function Redirect(rule: Rule, E: Workflows): (r: Rule)
    requires AllTrivial(E)
    ensures r.condition == rule.condition
    ensures rule.destination !in E ==> r == rule
  {
    if rule.destination in E then Rule(E[rule.destination].rules[0].destination, rule.condition) else rule
  }

  function RedirectAll(rules: seq<Rule>, E: Workflows): (r: seq<Rule>)
    requires AllTrivial(E)
    ensures |r| == |rules|
  {
    seq(|rules|, i requires 0 <= i < |rules| => Redirect(rules[i], E))
  }

  predicate MentionsAny(w: Workflow, E: Workflows)
  {
    exists i | 0 <= i < |w.rules| :: w.rules[i].destination in E
  }

  /** A workflow with its rules redirected past the trivial workflows and then simplified, when it mentions one. */
  function RedirectWorkflow(w: Workflow, E: Workflows): (r: Workflow)
    requires AllTrivial(E)
    ensures r.name == w.name
  {
    if MentionsAny(w, E) then Workflow(w.name, SimplifiedRules(RedirectAll(w.rules, E))) else w
  }

  /** One round of the simplification loop: drop the trivial workflows and redirect the rest. */
  function SimplifyRound(ws: seq<Workflow>, E: Workflows): (r: seq<Workflow>)
    requires AllTrivial(E)
    ensures |r| <= |ws|
  {
    if ws == [] then []
    else
      var init := SimplifyRound(ws[..|ws| - 1], E);
      var last := ws[|ws| - 1];
      if last.name in E then init else init + [RedirectWorkflow(last, E)]
  }

  /** A round that has a trivial workflow to drop removes at least one workflow. */
  lemma {:induction false} SimplifyRoundShrinks(ws: seq<Workflow>, E: Workflows)
    requires AllTrivial(E) && exists w | w in ws :: w.name in E
    ensures |SimplifyRound(ws, E)| < |ws|
  {
    var init, last := ws[..|ws| - 1], ws[|ws| - 1];
    if last.name !in E {
      var w :| w in ws && w.name in E;
      assert w in init;
      SimplifyRoundShrinks(init, E);
    }
  }

  /** What a round keeps is not trivial any more by name, and bears the name of an input workflow. */
  lemma {:induction false} SimplifyRoundNames(ws: seq<Workflow>, E: Workflows)
    requires AllTrivial(E)
    ensures forall w | w in SimplifyRound(ws, E) :: w.name !in E && exists v | v in ws :: v.name == w.name
  {
    if ws != [] {
      var init, last := ws[..|ws| - 1], ws[|ws| - 1];
      SimplifyRoundNames(init, E);
      forall w | w in SimplifyRound(ws, E) ensures w.name !in E && exists v | v in ws :: v.name == w.name {
        if w in SimplifyRound(init, E) {
          var v :| v in init && v.name == w.name;
          assert v in ws;
        } else {
          assert w == RedirectWorkflow(last, E) && last in ws;
        }
      }
    }
  }

  /**
   * `List<Workflow>.simplified` as a function: rounds until no trivial workflow is left. Each
   * round that runs removes at least one workflow.
   */
  function SimplifyAll(ws: seq<Workflow>): (r: seq<Workflow>)
    ensures forall w | w in r :: !IsTrivial(w)
    ensures forall w | w in r :: exists v | v in ws :: v.name == w.name
    decreases |ws|
  {
    var E := EmptyWorkflows(ws);
    if |E| == 0 then ws
    else
      var n :| n in E;
      assert E[n] in ws;
      SimplifyRoundShrinks(ws, E);
      SimplifyRoundNames(ws, E);
      var r := SimplifyAll(SimplifyRound(ws, E));
      assert forall w | w in r :: exists v | v in ws :: v.name == w.name by {
        forall w | w in r ensures exists v | v in ws :: v.name == w.name {
          var u :| u in SimplifyRound(ws, E) && u.name == w.name;
          var v :| v in ws && v.name == u.name;
        }
      }
      r
  }

  /** `List<Workflow>.simplified`: the loop that drops trivial workflows until there are none. */
  method SimplifiedWorkflows(ws: seq<Workflow>) returns (result: seq<Workflow>)
    ensures result == SimplifyAll(ws)
  {
    var emptyWorkflows := EmptyWorkflows(ws);
    result := ws;
    while |emptyWorkflows| != 0
      invariant emptyWorkflows == EmptyWorkflows(result)
      invariant SimplifyAll(result) == SimplifyAll(ws)
      decreases |result|
    {
      var n :| n in emptyWorkflows;
      assert emptyWorkflows[n] in result;
      SimplifyRoundShrinks(result, emptyWorkflows);
      result := SimplifyRound(result, emptyWorkflows);
      emptyWorkflows := EmptyWorkflows(result);
    }
  }

  /** `Workflow(name, ruleList.simplified())` for every parsed workflow. */
  function SimplifyEachRules(ws: seq<Workflow>): (r: seq<Workflow>)
    ensures |r| == |ws|
    ensures forall i | 0 <= i < |ws| :: r[i] == Workflow(ws[i].name, SimplifiedRules(ws[i].rules))
  {
    seq(|ws|, i requires 0 <= i < |ws| => Workflow(ws[i].name, SimplifiedRules(ws[i].rules)))
  }

  /** The workflow table `getWorkflowsAndMachineParts` builds, as the source writes it. */
  function PrepareWorkflows(ws: seq<Workflow>): Workflows
  {
    AssociateBy(SimplifyAll(SimplifyEachRules(ws)))
  }

  /**
   * Finding: a trivial entry workflow is dropped like any other, so `in{A}` leaves no `in` and
   * every part makes `getValue("in")` throw, where it was accepted before.
   */
  lemma DropsTrivialEntry(part: MachinePart)
    ensures var ws := [Workflow("in", [Rule("A", None)])];
            && Evaluate(AssociateBy(ws), "in", part, 0) == Accepted
            && PrepareWorkflows(ws) == map[]
            && Evaluate(PrepareWorkflows(ws), "in", part, 0) == Fails
  {
    var ws := [Workflow("in", [Rule("A", None)])];
    assert SimplifyEachRules(ws) == ws;
    assert "in" in EmptyWorkflows(ws);
    assert SimplifyRound(ws, EmptyWorkflows(ws)) == [];
  }

  /** The workflows `in{x<5:m,R}`, `m{t}`, `t{A}`: a chain of two trivial workflows. */
  predicate IsChain(ws: seq<Workflow>)
  {
    ws == [Workflow("in", [Rule("m", Some(Condition('x', LessThan, 5))), Rule("R", None)]),
           Workflow("m", [Rule("t", None)]), Workflow("t", [Rule("A", None)])]
  }

  /** What the chain's entry becomes once `m` is redirected to `t`. */
  predicate IsRedirectedEntry(w: Workflow)
  {
    w == Workflow("in", [Rule("t", Some(Condition('x', LessThan, 5))), Rule("R", None)])
  }

  lemma ChainAccepts(ws: seq<Workflow>, part: MachinePart)
    requires IsChain(ws) && part == MachinePart(map['x' := 1])
    ensures Evaluate(AssociateBy(ws), "in", part, 2) == Accepted
  {
    AssociateThree(ws[0], ws[1], ws[2]);
    assert ws == [ws[0], ws[1], ws[2]];
    var M := AssociateBy(ws);
    assert M["in"] == ws[0] && M["m"] == ws[1] && M["t"] == ws[2];
    assert FirstApplicable(ws[0].rules, part) == Picked(ws[0].rules[0]);
  }

  /** Three workflows with different names, each under its own name. */
  lemma AssociateThree(a: Workflow, b: Workflow, c: Workflow)
    requires a.name != b.name && a.name != c.name && b.name != c.name
    ensures AssociateBy([a, b, c]) == map[a.name := a, b.name := b, c.name := c]
  {
    assert [a, b, c][..2] == [a, b] && [a, b][..1] == [a] && [a][..0] == [];
  }

  lemma ChainRulesKept(ws: seq<Workflow>)
    requires IsChain(ws)
    ensures SimplifyEachRules(ws) == ws
  {
    assert !OneDestination(ws[0].rules) by {
      assert ws[0].rules[1].destination != ws[0].rules[0].destination;
    }
    assert OneDestination(ws[1].rules) && OneDestination(ws[2].rules);
  }

  lemma ChainEmpty(ws: seq<Workflow>)
    requires IsChain(ws)
    ensures EmptyWorkflows(ws) == map["m" := ws[1], "t" := ws[2]]
  {
    assert !IsTrivial(ws[0]) && IsTrivial(ws[1]) && IsTrivial(ws[2]);
    assert ws[..1] == [ws[0]] && ws[..2] == [ws[0], ws[1]];
    assert TrivialOnes(ws[..1]) == [];
    assert TrivialOnes(ws[..2]) == [ws[1]];
    assert TrivialOnes(ws) == [ws[1], ws[2]];
    assert [ws[1], ws[2]][..1] == [ws[1]];
  }

  lemma ChainEntryRedirected(ws: seq<Workflow>, E: Workflows, w: Workflow)
    requires IsChain(ws) && E == map["m" := ws[1], "t" := ws[2]] && IsRedirectedEntry(w)
    ensures RedirectWorkflow(ws[0], E) == w
  {
    assert MentionsAny(ws[0], E) by {
      assert ws[0].rules[0].destination in E;
    }
    assert RedirectAll(ws[0].rules, E) == w.rules;
    assert !OneDestination(w.rules) by {
      assert w.rules[1].destination != w.rules[0].destination;
    }
  }

  lemma ChainRound(ws: seq<Workflow>, E: Workflows, w: Workflow)
    requires IsChain(ws) && E == map["m" := ws[1], "t" := ws[2]] && IsRedirectedEntry(w)
    ensures SimplifyRound(ws, E) == [w]
  {
    ChainEntryRedirected(ws, E, w);
    assert ws[..1] == [ws[0]] && ws[..2] == [ws[0], ws[1]];
    assert ws[..1][..0] == [];
    assert SimplifyRound(ws[..1], E) == [w];
    assert ws[..2][..1] == ws[..1];
    assert SimplifyRound(ws[..2], E) == [w];
  }

  lemma ChainPrepared(ws: seq<Workflow>, w: Workflow)
    requires IsChain(ws) && IsRedirectedEntry(w)
    ensures PrepareWorkflows(ws) == map["in" := w]
  {
    ChainRulesKept(ws);
    ChainEmpty(ws);
    ChainRound(ws, EmptyWorkflows(ws), w);
    assert "m" in EmptyWorkflows(ws) && !IsTrivial(w) && w.name == "in";
    PreparedInOneRound(ws, w);
  }

  /** Rules that need no simplification and one round that leaves a single non-trivial workflow. */
  lemma PreparedInOneRound(ws: seq<Workflow>, w: Workflow)
    requires SimplifyEachRules(ws) == ws && |EmptyWorkflows(ws)| != 0
    requires SimplifyRound(ws, EmptyWorkflows(ws)) == [w] && !IsTrivial(w)
    ensures PrepareWorkflows(ws) == map[w.name := w]
  {
    assert TrivialOnes([w]) == [];
    assert SimplifyAll([w]) == [w];
  }

  /**
   * Finding: a rule to a trivial workflow is redirected one step only, so when that workflow
   * forwards to another trivial one, removed in the same round, the rule is left pointing at a
   * workflow that no longer exists: `in{x<5:m,R}`, `m{t}`, `t{A}` accepts a part with `x=1`
   * before and throws after.
   */
  lemma LeavesDanglingRedirect(ws: seq<Workflow>, part: MachinePart)
    requires IsChain(ws) && part == MachinePart(map['x' := 1])
    ensures Evaluate(AssociateBy(ws), "in", part, 2) == Accepted
    ensures Evaluate(PrepareWorkflows(ws), "in", part, 2) == Fails
  {
    ChainAccepts(ws, part);
    var w := Workflow("in", [Rule("t", Some(Condition('x', LessThan, 5))), Rule("R", None)]);
    ChainPrepared(ws, w);
    ChainDangles(PrepareWorkflows(ws), w, part);
  }

  lemma ChainDangles(M: Workflows, w: Workflow, part: MachinePart)
    requires IsRedirectedEntry(w) && M == map["in" := w] && part == MachinePart(map['x' := 1])
    ensures Evaluate(M, "in", part, 2) == Fails
  {
    assert IsMet(w.rules[0].condition.value, part) == Some(true);
    assert FirstApplicable(w.rules, part) == Picked(w.rules[0]);
    assert EvalRules(M, w.rules, part, 2) == Evaluate(M, "t", part, 1);
  }

  /** Redirecting leaves conditions alone, so the same position is picked, now with the redirected rule. */
  lemma {:induction false} RedirectAllPicks(rules: seq<Rule>, E: Workflows, part: MachinePart)
    requires AllTrivial(E)
    ensures FirstApplicable(RedirectAll(rules, E), part) ==
            match FirstApplicable(rules, part)
            case Throws => Throws
            case Picked(rule) => Picked(Redirect(rule, E))
  {
    if rules != [] {
      var redirected := RedirectAll(rules, E);
      assert redirected[0] == Redirect(rules[0], E);
      assert redirected[1..] == RedirectAll(rules[1..], E);
      RedirectAllPicks(rules[1..], E, part);
    }
  }

  /** A redirected workflow sends a part where the old one did, one forwarding step skipped. */
  lemma RedirectWorkflowPicks(w: Workflow, E: Workflows, part: MachinePart)
    requires AllTrivial(E) && FirstApplicable(w.rules, part).Picked?
    ensures FirstApplicable(RedirectWorkflow(w, E).rules, part).Picked?
    ensures FirstApplicable(RedirectWorkflow(w, E).rules, part).rule.destination ==
            Redirect(FirstApplicable(w.rules, part).rule, E).destination
  {
    if MentionsAny(w, E) {
      RedirectAllPicks(w.rules, E, part);
      SimplifiedRulesSamePick(RedirectAll(w.rules, E), part);
    } else {
      FirstApplicablePicks(w.rules, part);
    }
  }

  /** The corrected removal of one trivial workflow: drop it and redirect every rule that led to it. */
  function RemoveTrivial(M: Workflows, name: string): (r: Workflows)
    requires name in M && IsTrivial(M[name])
    ensures r.Keys == M.Keys - {name}
    ensures forall n | n in r :: r[n] == RedirectWorkflow(M[n], map[name := M[name]])
  {
    map n | n in M && n != name :: RedirectWorkflow(M[n], map[name := M[name]])
  }

  /** A workflow that forwards to itself never decides anything. */
  lemma {:induction false} SelfForwardUndecided(M: Workflows, w: string, part: MachinePart, fuel: nat)
    requires w in M && IsTrivial(M[w]) && w != "A" && w != "R"
    ensures M[w].rules[0].destination == w ==> Evaluate(M, w, part, fuel) == Unfinished
  {
    assert FirstApplicable(M[w].rules, part) == Picked(M[w].rules[0]);
    if M[w].rules[0].destination == w && fuel > 0 {
      SelfForwardUndecided(M, w, part, fuel - 1);
    }
  }

  predicate Decides(o: Outcome)
  {
    o == Accepted || o == Rejected
  }

  /**
   * Removing one trivial workflow (not named `A` or `R`) keeps the verdict on every part sent to
   * any other workflow, within the same number of jumps.
   */
  lemma {:induction false} RemoveTrivialPreserves(M: Workflows, w: string, name: string, part: MachinePart, fuel: nat)
    requires w in M && IsTrivial(M[w]) && w != "A" && w != "R" && name != w
    requires Decides(Evaluate(M, name, part, fuel))
    ensures Evaluate(RemoveTrivial(M, w), name, part, fuel) == Evaluate(M, name, part, fuel)
    decreases fuel, 1
  {
    var E := map[w := M[w]];
    assert name in M && Evaluate(M, name, part, fuel) == EvalRules(M, M[name].rules, part, fuel);
    assert FirstApplicable(M[name].rules, part).Picked?;
    var rule := FirstApplicable(M[name].rules, part).rule;
    RedirectWorkflowPicks(M[name], E, part);
    var smaller := RemoveTrivial(M, w);
    assert name in smaller && smaller[name] == RedirectWorkflow(M[name], E);
    assert Evaluate(smaller, name, part, fuel) == EvalRules(smaller, smaller[name].rules, part, fuel);
    if !IsAcceptedRule(rule) && !IsRejectedRule(rule) {
      assert fuel > 0 && Evaluate(M, name, part, fuel) == Evaluate(M, rule.destination, part, fuel - 1);
      if rule.destination != w {
        RemoveTrivialPreserves(M, w, rule.destination, part, fuel - 1);
      } else {
        var t := M[w].rules[0].destination;
        assert FirstApplicable(M[w].rules, part) == Picked(M[w].rules[0]);
        assert Redirect(rule, E).destination == t;
        if t == "A" || t == "R" {
          assert Evaluate(M, w, part, fuel - 1) == if t == "A" then Accepted else Rejected;
        } else {
          PassThroughRemoved(M, w, part, fuel - 1);
        }
      }
    }
  }

  /**
   * A part that reaches the removed workflow `w` ends up where `w` forwards it, when that is
   * another workflow: the table without `w` gives it the same verdict, one jump sooner.
   */
  lemma {:induction false} PassThroughRemoved(M: Workflows, w: string, part: MachinePart, fuel: nat)
    requires w in M && IsTrivial(M[w]) && w != "A" && w != "R"
    requires M[w].rules[0].destination != "A" && M[w].rules[0].destination != "R"
    requires Decides(Evaluate(M, w, part, fuel))
    ensures Evaluate(RemoveTrivial(M, w), M[w].rules[0].destination, part, fuel) == Evaluate(M, w, part, fuel)
    decreases fuel, 0
  {
    var t := M[w].rules[0].destination;
    SelfForwardUndecided(M, w, part, fuel);
    assert FirstApplicable(M[w].rules, part) == Picked(M[w].rules[0]);
    assert fuel > 0 && Evaluate(M, w, part, fuel) == Evaluate(M, t, part, fuel - 1);
    RemoveTrivialPreserves(M, w, t, part, fuel - 1);
    EvaluateMoreFuel(RemoveTrivial(M, w), t, part, fuel - 1, fuel);
  }

  /** Some workflow other than the entry only forwards. */
  predicate HasRemovable(M: Workflows)
  {
    exists n | n in M :: n != "in" && IsTrivial(M[n])
  }

  ghost function Removable(M: Workflows): (n: string)
    requires HasRemovable(M)
    ensures n in M && n != "in" && IsTrivial(M[n])
  {
    var n :| n in M && n != "in" && IsTrivial(M[n]); n
  }

  /**
   * The simplification as evidently intended: remove trivial workflows one at a time, never the
   * entry, redirecting the rules that led to each. What is left has only the names it had, keeps
   * `in`, and has no trivial workflow but possibly `in`.
   */
  ghost function SimplifyKeepingEntry(M: Workflows): (r: Workflows)
    ensures r.Keys <= M.Keys
    ensures "in" in M ==> "in" in r
    ensures !HasRemovable(r)
    decreases |M|
  {
    if HasRemovable(M) then
      var n := Removable(M);
      var smaller := RemoveTrivial(M, n);
      assert |smaller.Keys| == |M.Keys - {n}| == |M.Keys| - 1;
      SimplifyKeepingEntry(smaller)
    else M
  }

  /**
   * The corrected simplification keeps every verdict: a part accepted (rejected) from `in` is
   * still accepted (rejected), within the same number of jumps, as long as no workflow is called
   * `A` or `R`.
   */
  lemma {:induction false} SimplifyKeepingEntryPreserves(M: Workflows, part: MachinePart, fuel: nat)
    requires "A" !in M && "R" !in M
    requires Decides(Evaluate(M, "in", part, fuel))
    ensures Evaluate(SimplifyKeepingEntry(M), "in", part, fuel) == Evaluate(M, "in", part, fuel)
    decreases |M|
  {
    if HasRemovable(M) {
      var n := Removable(M);
      var smaller := RemoveTrivial(M, n);
      assert |smaller.Keys| == |M.Keys - {n}| == |M.Keys| - 1;
      RemoveTrivialPreserves(M, n, "in", part, fuel);
      SimplifyKeepingEntryPreserves(smaller, part, fuel);
    }
  }

  /** Every workflow's rule list simplified, on the table. */
  function SimplifyRulesIn(M: Workflows): (r: Workflows)
    ensures r.Keys == M.Keys
    ensures forall n | n in M :: r[n] == Workflow(M[n].name, SimplifiedRules(M[n].rules))
  {
    map n | n in M :: Workflow(M[n].name, SimplifiedRules(M[n].rules))
  }

  /** Simplifying the rule lists keeps every verdict. */
  lemma {:induction false} SimplifyRulesInPreserves(M: Workflows, name: string, part: MachinePart, fuel: nat)
    requires Decides(Evaluate(M, name, part, fuel))
    ensures Evaluate(SimplifyRulesIn(M), name, part, fuel) == Evaluate(M, name, part, fuel)
    decreases fuel
  {
    var S := SimplifyRulesIn(M);
    assert name in M && Evaluate(M, name, part, fuel) == EvalRules(M, M[name].rules, part, fuel);
    assert Evaluate(S, name, part, fuel) == EvalRules(S, S[name].rules, part, fuel);
    SimplifiedRulesSamePick(M[name].rules, part);
    var rule := FirstApplicable(M[name].rules, part).rule;
    if !IsAcceptedRule(rule) && !IsRejectedRule(rule) {
      SimplifyRulesInPreserves(M, rule.destination, part, fuel - 1);
    }
  }

  /** Simplifying each parsed rule list and then tabulating is tabulating and then simplifying. */
  lemma {:induction false} AssociateBySimplified(ws: seq<Workflow>)
    ensures AssociateBy(SimplifyEachRules(ws)) == SimplifyRulesIn(AssociateBy(ws))
  {
    if ws != [] {
      var init, w := ws[..|ws| - 1], ws[|ws| - 1];
      var simplified := Workflow(w.name, SimplifiedRules(w.rules));
      assert SimplifyEachRules(ws) == SimplifyEachRules(init) + [simplified];
      assert (SimplifyEachRules(init) + [simplified])[..|ws| - 1] == SimplifyEachRules(init);
      AssociateBySimplified(init);
      SimplifyRulesInUpdate(AssociateBy(init), w);
    }
  }

  /** Simplifying the rule lists commutes with putting one workflow in the table. */
  lemma SimplifyRulesInUpdate(M: Workflows, w: Workflow)
    ensures SimplifyRulesIn(M[w.name := w]) == SimplifyRulesIn(M)[w.name := Workflow(w.name, SimplifiedRules(w.rules))]
  {
  }

  /** No workflow is called `A` or `R`, the names that mean acceptance and rejection. */
  predicate NoVerdictNames(ws: seq<Workflow>)
  {
    forall w | w in ws :: w.name != "A" && w.name != "R"
  }

  /** The workflow table as evidently intended: rule lists simplified, then trivial workflows removed but for `in`. */
  ghost function PrepareWorkflowsCorrected(ws: seq<Workflow>): Workflows
  {
    SimplifyKeepingEntry(AssociateBy(SimplifyEachRules(ws)))
  }

  /** The corrected table gives every part the verdict the parsed workflows give it. */
  lemma PrepareWorkflowsCorrectedPreserves(ws: seq<Workflow>, part: MachinePart, fuel: nat)
    requires NoVerdictNames(ws)
    requires Decides(Evaluate(AssociateBy(ws), "in", part, fuel))
    ensures Evaluate(PrepareWorkflowsCorrected(ws), "in", part, fuel) == Evaluate(AssociateBy(ws), "in", part, fuel)
  {
    var M := AssociateBy(ws);
    AssociateBySimplified(ws);
    SimplifyRulesInPreserves(M, "in", part, fuel);
    SimplifyKeepingEntryPreserves(SimplifyRulesIn(M), part, fuel);
  }

  /** The sum of a part's ratings (`params.values.sum()`). */
  ghost function RatingTotal(params: map<char, int>): int
    decreases |params|
  {
    if |params| == 0 then 0
    else
      var k :| k in params;
      params[k] + RatingTotal(params - {k})
  }

  /**
   * The ratings of the parts accepted from `in`, added up; `None` when some part's run throws or
   * does not finish within `fuel` jumps.
   */
  ghost function AcceptedRatings(M: Workflows, parts: seq<MachinePart>, fuel: nat): (r: Option<int>)
    ensures r.Some? <==> forall i | 0 <= i < |parts| :: Evaluate(M, "in", parts[i], fuel) in {Accepted, Rejected}
  {
    if parts == [] then Some(0)
    else
      var outcome := Evaluate(M, "in", parts[|parts| - 1], fuel);
      match AcceptedRatings(M, parts[..|parts| - 1], fuel)
      case None => None
      case Some(total) =>
        if outcome == Accepted then Some(total + RatingTotal(parts[|parts| - 1].params))
        else if outcome == Rejected then Some(total)
        else None
  }

  /** `Subrange`: for each of the four ratings, the values still possible, by index. */
  datatype Subrange = Subrange(truthMap: map<char, seq<bool>>)

  /** Exactly the ratings `x`, `m`, `a`, `s`, with arrays of one common length. */
  predicate ValidSubrange(sub: Subrange)
  {
    ValidTruths(sub.truthMap)
  }

  predicate ValidTruths(t: map<char, seq<bool>>)
  {
    && t.Keys == {'x', 'm', 'a', 's'}
    && |t['m']| == |t['x']| && |t['a']| == |t['x']| && |t['s']| == |t['x']|
  }

  /** The length of the arrays: ratings run over `0 .. Width - 1`. */
  function Width(sub: Subrange): nat
    requires ValidSubrange(sub)
  {
    |sub.truthMap['x']|
  }

  /** `possibilitiesNum`: the product of the numbers of possible values, in the order of the map. */
  function PossibilitiesNum(sub: Subrange): nat
    requires ValidSubrange(sub)
  {
    var t := sub.truthMap;
    Times(Times(Times(CountTrue(t['x']), CountTrue(t['m'])), CountTrue(t['a'])), CountTrue(t['s']))
  }

  /** `product * count` in the `reduce`. */
  function Times(a: nat, b: nat): nat
  {
    a * b
  }

  /** The combination lies in the sub-box. */
  predicate InSubrange(sub: Subrange, p: Rating)
    requires ValidSubrange(sub) && InBox(p, Width(sub))
  {
    var t := sub.truthMap;
    Admits(t['x'], t['m'], t['a'], t['s'], p)
  }

  /** The indicator of the sub-box. */
  function Indicator(sub: Subrange): Rating -> int
    requires ValidSubrange(sub)
  {
    p => if InBox(p, Width(sub)) && InSubrange(sub, p) then 1 else 0
  }

  /** The number of possibilities is the number of combinations in the sub-box. */
  lemma PossibilitiesCount(sub: Subrange)
    requires ValidSubrange(sub)
    ensures PossibilitiesNum(sub) == SumAll(Indicator(sub), Width(sub))
  {
    var t := sub.truthMap;
    IndicatorIndicates(sub);
    SumAllBox(Indicator(sub), t['x'], t['m'], t['a'], t['s']);
    ProductRegrouped(CountTrue(t['x']), CountTrue(t['m']), CountTrue(t['a']), CountTrue(t['s']));
  }

  lemma IndicatorIndicates(sub: Subrange)
    requires ValidSubrange(sub)
    ensures var t := sub.truthMap; Indicates(Indicator(sub), t['x'], t['m'], t['a'], t['s'])
  {
  }

  lemma ProductRegrouped(cx: nat, cm: nat, ca: nat, cs: nat)
    ensures Times(Times(Times(cx, cm), ca), cs) == cx * (cm * (ca * cs))
  {
    assert cx * cm * ca == cx * (cm * ca);
    assert cx * (cm * ca) * cs == cx * (cm * ca * cs);
  }

  /** The value of one rating of a combination. */
  function Coordinate(p: Rating, param: char): nat
    requires param in {'x', 'm', 'a', 's'}
  {
    match param
    case 'x' => p.x
    case 'm' => p.m
    case 'a' => p.a
    case 's' => p.s
  }

  /** The machine part with the combination's ratings. */
  function PartOf(p: Rating): (part: MachinePart)
    ensures part.params.Keys == {'x', 'm', 'a', 's'}
    ensures forall param | param in part.params :: part.params[param] == Coordinate(p, param)
  {
    MachinePart(map['x' := p.x, 'm' := p.m, 'a' := p.a, 's' := p.s])
  }

  /** The values of `truths` that do (`met`) or do not meet the condition. */
  function Restrict(truths: seq<bool>, c: Condition, met: bool): (r: seq<bool>)
    ensures |r| == |truths|
  {
    seq(|truths|, i requires 0 <= i < |truths| => truths[i] && Holds(c.op, i, c.value) == met)
  }

  /** `subdivideBy`: the part of the sub-box meeting the condition, and the part failing it. */
  function Subdivide(sub: Subrange, c: Condition): (Subrange, Subrange)
    requires c.param in sub.truthMap
  {
    var t := sub.truthMap[c.param];
    (Subrange(sub.truthMap[c.param := Restrict(t, c, true)]), Subrange(sub.truthMap[c.param := Restrict(t, c, false)]))
  }

  /** `subdivideBy`: two copies of the condition's array, each cleared where the other keeps a value. */
  method SubdivideBy(sub: Subrange, c: Condition) returns (subrange1: Subrange, subrange2: Subrange)
    requires c.param in sub.truthMap
    ensures (subrange1, subrange2) == Subdivide(sub, c)
  {
    var truths := sub.truthMap[c.param];
    var truths1 := new bool[|truths|](i requires 0 <= i < |truths| => truths[i]);
    var truths2 := new bool[|truths|](i requires 0 <= i < |truths| => truths[i]);
    for i := 0 to |truths|
      invariant forall j | 0 <= j < i :: truths1[j] == (truths[j] && Holds(c.op, j, c.value))
      invariant forall j | 0 <= j < i :: truths2[j] == (truths[j] && !Holds(c.op, j, c.value))
      invariant forall j | i <= j < |truths| :: truths1[j] == truths[j] && truths2[j] == truths[j]
    {
      if Holds(c.op, i, c.value) {
        truths2[i] := false;
      } else {
        truths1[i] := false;
      }
    }
    assert truths1[..] == Restrict(truths, c, true);
    assert truths2[..] == Restrict(truths, c, false);
    subrange1 := Subrange(sub.truthMap[c.param := truths1[..]]);
    subrange2 := Subrange(sub.truthMap[c.param := truths2[..]]);
  }

  /**
   * The two halves split the sub-box: every combination of it lies in exactly one of them, the
   * first holding those whose part meets the condition and the second those whose part fails it,
   * and their possibilities add up.
   */
  lemma SubdivideSplits(sub: Subrange, c: Condition)
    requires ValidSubrange(sub) && c.param in sub.truthMap
    ensures var (s1, s2) := Subdivide(sub, c);
            && ValidSubrange(s1) && ValidSubrange(s2) && Width(s1) == Width(sub) && Width(s2) == Width(sub)
            && (forall p | InBox(p, Width(sub)) :: InSubrange(sub, p) <==> InSubrange(s1, p) || InSubrange(s2, p))
            && (forall p | InBox(p, Width(sub)) :: !(InSubrange(s1, p) && InSubrange(s2, p)))
            && (forall p | InBox(p, Width(sub)) && InSubrange(s1, p) :: IsMet(c, PartOf(p)) == Some(true))
            && (forall p | InBox(p, Width(sub)) && InSubrange(s2, p) :: IsMet(c, PartOf(p)) == Some(false))
            && PossibilitiesNum(s1) + PossibilitiesNum(s2) == PossibilitiesNum(sub)
  {
    var (s1, s2) := Subdivide(sub, c);
    var n := Width(sub);
    forall p | InBox(p, n)
      ensures InSubrange(sub, p) <==> InSubrange(s1, p) || InSubrange(s2, p)
      ensures !(InSubrange(s1, p) && InSubrange(s2, p))
      ensures InSubrange(s1, p) ==> IsMet(c, PartOf(p)) == Some(true)
      ensures InSubrange(s2, p) ==> IsMet(c, PartOf(p)) == Some(false)
    {
      var v := Coordinate(p, c.param);
      assert PartOf(p).params[c.param] == v;
    }
    PossibilitiesCount(sub);
    PossibilitiesCount(s1);
    PossibilitiesCount(s2);
    SumAllSplits(Indicator(sub), Indicator(s1), Indicator(s2), n);
  }

  /** The halves are sub-boxes of the same width whose possibilities add up to the sub-box's. */
  lemma SubdivideSizes(sub: Subrange, c: Condition)
    requires ValidSubrange(sub) && c.param in sub.truthMap
    ensures var (s1, s2) := Subdivide(sub, c);
            && ValidSubrange(s1) && ValidSubrange(s2) && Width(s1) == Width(sub) && Width(s2) == Width(sub)
            && PossibilitiesNum(s1) + PossibilitiesNum(s2) == PossibilitiesNum(sub)
  {
    SubdivideSplits(sub, c);
  }

  /**
   * `computePossibilities`: the accepted combinations of the sub-box when it enters `rules`,
   * splitting it at each conditional rule; `None` where the source throws (`first` on an empty
   * list, `getValue` on a missing workflow or rating) or after `fuel` jumps. Never more than the
   * sub-box holds.
   */
  function ComputePossibilities(M: Workflows, rules: seq<Rule>, sub: Subrange, fuel: nat): (r: Option<nat>)
    requires ValidSubrange(sub)
    ensures r.Some? ==> r.value <= PossibilitiesNum(sub)
    decreases fuel, |rules|
  {
    if rules == [] then None
    else
      var rule := rules[0];
      match rule.condition
      case None =>
        if IsAcceptedRule(rule) then Some(PossibilitiesNum(sub))
        else if IsRejectedRule(rule) then Some(0)
        else if rule.destination !in M || fuel == 0 then None
        else ComputePossibilities(M, M[rule.destination].rules, sub, fuel - 1)
      case Some(c) =>
        if c.param !in sub.truthMap then None
        else
          SubdivideSizes(sub, c);
          var (s1, s2) := Subdivide(sub, c);
          var count1 :=
            if IsRejectedRule(rule) then Some(0)
            else if IsAcceptedRule(rule) then Some(PossibilitiesNum(s1))
            else if rule.destination !in M || fuel == 0 then None
            else ComputePossibilities(M, M[rule.destination].rules, s1, fuel - 1);
          var count2 := ComputePossibilities(M, rules[1..], s2, fuel);
          if count1.Some? && count2.Some? then Some(count1.value + count2.value) else None
  }

  /** The indicator of the combinations of the sub-box whose parts `rules` accept within `fuel` jumps. */
  function AcceptedIn(M: Workflows, rules: seq<Rule>, sub: Subrange, fuel: nat): Rating -> int
    requires ValidSubrange(sub)
  {
    p => if InBox(p, Width(sub)) && InSubrange(sub, p) && EvalRules(M, rules, PartOf(p), fuel) == Accepted then 1 else 0
  }

  /**
   * What `computePossibilities` counts: when it finishes, its result is exactly the number of
   * combinations of the sub-box whose parts the rules accept, part by part as `isAccepted` would.
   */
  lemma {:induction false} ComputePossibilitiesCounts(M: Workflows, rules: seq<Rule>, sub: Subrange, fuel: nat)
    requires ValidSubrange(sub) && ComputePossibilities(M, rules, sub, fuel).Some?
    ensures ComputePossibilities(M, rules, sub, fuel).value == SumAll(AcceptedIn(M, rules, sub, fuel), Width(sub))
    decreases fuel, |rules|, 3
  {
    if rules[0].condition.None? {
      CountsUnconditional(M, rules, sub, fuel);
    } else {
      CountsConditional(M, rules, sub, fuel);
    }
  }

  lemma {:induction false} CountsUnconditional(M: Workflows, rules: seq<Rule>, sub: Subrange, fuel: nat)
    requires ValidSubrange(sub) && ComputePossibilities(M, rules, sub, fuel).Some?
    requires rules != [] && rules[0].condition.None?
    ensures ComputePossibilities(M, rules, sub, fuel).value == SumAll(AcceptedIn(M, rules, sub, fuel), Width(sub))
    decreases fuel, |rules|, 2
  {
    var rule := rules[0];
    if IsAcceptedRule(rule) {
      assert ComputePossibilities(M, rules, sub, fuel).value == PossibilitiesNum(sub);
      AllAccepted(M, rules, sub, fuel);
    } else if IsRejectedRule(rule) {
      assert ComputePossibilities(M, rules, sub, fuel).value == 0;
      AllRejected(M, rules, sub, fuel);
    } else {
      var next := M[rule.destination].rules;
      assert ComputePossibilities(M, rules, sub, fuel) == ComputePossibilities(M, next, sub, fuel - 1);
      ComputePossibilitiesCounts(M, next, sub, fuel - 1);
      AllJump(M, rules, sub, fuel);
    }
  }

  lemma AllAccepted(M: Workflows, rules: seq<Rule>, sub: Subrange, fuel: nat)
    requires ValidSubrange(sub) && rules != [] && rules[0] == Rule("A", None)
    ensures SumAll(AcceptedIn(M, rules, sub, fuel), Width(sub)) == PossibilitiesNum(sub)
  {
    var g := AcceptedIn(M, rules, sub, fuel);
    forall p | InBox(p, Width(sub)) ensures g(p) == Indicator(sub)(p) {
      assert FirstApplicable(rules, PartOf(p)) == Picked(rules[0]);
    }
    PossibilitiesCount(sub);
    SumAllSame(g, Indicator(sub), Width(sub));
  }

  lemma AllRejected(M: Workflows, rules: seq<Rule>, sub: Subrange, fuel: nat)
    requires ValidSubrange(sub) && rules != [] && rules[0] == Rule("R", None)
    ensures SumAll(AcceptedIn(M, rules, sub, fuel), Width(sub)) == 0
  {
    var g := AcceptedIn(M, rules, sub, fuel);
    forall p | InBox(p, Width(sub)) ensures g(p) == 0 {
      assert FirstApplicable(rules, PartOf(p)) == Picked(rules[0]);
    }
    SumAllZero(g, Width(sub));
  }

  lemma AllJump(M: Workflows, rules: seq<Rule>, sub: Subrange, fuel: nat)
    requires ValidSubrange(sub) && rules != [] && rules[0].condition.None?
    requires !IsAcceptedRule(rules[0]) && !IsRejectedRule(rules[0]) && rules[0].destination in M && fuel > 0
    ensures SumAll(AcceptedIn(M, rules, sub, fuel), Width(sub)) ==
            SumAll(AcceptedIn(M, M[rules[0].destination].rules, sub, fuel - 1), Width(sub))
  {
    var g := AcceptedIn(M, rules, sub, fuel);
    var h := AcceptedIn(M, M[rules[0].destination].rules, sub, fuel - 1);
    forall p | InBox(p, Width(sub)) ensures g(p) == h(p) {
      assert FirstApplicable(rules, PartOf(p)) == Picked(rules[0]);
      assert EvalRules(M, rules, PartOf(p), fuel) == Evaluate(M, rules[0].destination, PartOf(p), fuel - 1);
    }
    SumAllSame(g, h, Width(sub));
  }

  lemma {:induction false} CountsConditional(M: Workflows, rules: seq<Rule>, sub: Subrange, fuel: nat)
    requires ValidSubrange(sub) && ComputePossibilities(M, rules, sub, fuel).Some?
    requires rules != [] && rules[0].condition.Some?
    ensures ComputePossibilities(M, rules, sub, fuel).value == SumAll(AcceptedIn(M, rules, sub, fuel), Width(sub))
    decreases fuel, |rules|, 2
  {
    if IsRejectedRule(rules[0]) || IsAcceptedRule(rules[0]) {
      CountsConditionalStop(M, rules, sub, fuel);
    } else {
      CountsConditionalJump(M, rules, sub, fuel);
    }
  }

  lemma {:induction false} CountsConditionalStop(M: Workflows, rules: seq<Rule>, sub: Subrange, fuel: nat)
    requires ValidSubrange(sub) && ComputePossibilities(M, rules, sub, fuel).Some?
    requires rules != [] && rules[0].condition.Some? && (IsAcceptedRule(rules[0]) || IsRejectedRule(rules[0]))
    ensures ComputePossibilities(M, rules, sub, fuel).value == SumAll(AcceptedIn(M, rules, sub, fuel), Width(sub))
    decreases fuel, |rules|, 0
  {
    ConditionalValue(M, rules, sub, fuel);
    var s2 := Subdivide(sub, rules[0].condition.value).1;
    ComputePossibilitiesCounts(M, rules[1..], s2, fuel);
    if IsRejectedRule(rules[0]) {
      SplitRejected(M, rules, sub, fuel);
    } else {
      SplitAccepted(M, rules, sub, fuel);
    }
  }

  lemma {:induction false} CountsConditionalJump(M: Workflows, rules: seq<Rule>, sub: Subrange, fuel: nat)
    requires ValidSubrange(sub) && ComputePossibilities(M, rules, sub, fuel).Some?
    requires rules != [] && rules[0].condition.Some? && !IsAcceptedRule(rules[0]) && !IsRejectedRule(rules[0])
    ensures ComputePossibilities(M, rules, sub, fuel).value == SumAll(AcceptedIn(M, rules, sub, fuel), Width(sub))
    decreases fuel, |rules|, 1
  {
    var s1, next, f := CountsOtherHalf(M, rules, sub, fuel);
    ComputePossibilitiesCounts(M, next, s1, f);
  }

  /**
   * At a conditional rule that jumps to another workflow: with the half failing the condition
   * counted correctly by the rest of the rules, the whole count is right as soon as the half `s1`
   * meeting it is counted right by the workflow jumped to.
   */
  lemma {:induction false} CountsOtherHalf(M: Workflows, rules: seq<Rule>, sub: Subrange, fuel: nat)
    returns (s1: Subrange, next: seq<Rule>, f: nat)
    requires ValidSubrange(sub) && ComputePossibilities(M, rules, sub, fuel).Some?
    requires rules != [] && rules[0].condition.Some? && !IsAcceptedRule(rules[0]) && !IsRejectedRule(rules[0])
    ensures f < fuel && ValidSubrange(s1) && Width(s1) == Width(sub)
    ensures ComputePossibilities(M, next, s1, f).Some?
    ensures ComputePossibilities(M, rules, sub, fuel).value + SumAll(AcceptedIn(M, next, s1, f), Width(sub))
            == SumAll(AcceptedIn(M, rules, sub, fuel), Width(sub)) + ComputePossibilities(M, next, s1, f).value
    decreases fuel, |rules|, 0
  {
    var s2;
    s1, s2, next, f := JumpValue(M, rules, sub, fuel);
    SplitJump(M, rules, sub, fuel, s1, s2, next, f);
    ComputePossibilitiesCounts(M, rules[1..], s2, fuel);
    var w := Width(sub);
    SumOfHalves(ComputePossibilities(M, rules, sub, fuel).value, ComputePossibilities(M, next, s1, f).value,
                ComputePossibilities(M, rules[1..], s2, fuel).value,
                SumAll(AcceptedIn(M, rules, sub, fuel), w), SumAll(AcceptedIn(M, next, s1, f), w),
                SumAll(AcceptedIn(M, rules[1..], s2, fuel), w));
  }

  /** `ConditionalValue` at a rule that jumps, with the two halves and the workflow jumped to named. */
  lemma JumpValue(M: Workflows, rules: seq<Rule>, sub: Subrange, fuel: nat)
    returns (s1: Subrange, s2: Subrange, next: seq<Rule>, f: nat)
    requires ValidSubrange(sub) && ComputePossibilities(M, rules, sub, fuel).Some?
    requires rules != [] && rules[0].condition.Some? && !IsAcceptedRule(rules[0]) && !IsRejectedRule(rules[0])
    ensures rules[0].condition.value.param in sub.truthMap && rules[0].destination in M && fuel > 0
    ensures (s1, s2) == Subdivide(sub, rules[0].condition.value) && next == M[rules[0].destination].rules && f == fuel - 1
    ensures ValidSubrange(s1) && ValidSubrange(s2) && Width(s1) == Width(sub) && Width(s2) == Width(sub)
    ensures ComputePossibilities(M, next, s1, f).Some? && ComputePossibilities(M, rules[1..], s2, fuel).Some?
    ensures ComputePossibilities(M, rules, sub, fuel).value
            == ComputePossibilities(M, next, s1, f).value + ComputePossibilities(M, rules[1..], s2, fuel).value
  {
    var c := rules[0].condition.value;
    SubdivideSizes(sub, c);
    s1, s2 := Subdivide(sub, c).0, Subdivide(sub, c).1;
    next, f := M[rules[0].destination].rules, fuel - 1;
  }

  /** Two totals made of two halves each, whose second halves agree, differ by the difference of the first halves. */
  lemma SumOfHalves(total: int, first: int, second: int, total': int, first': int, second': int)
    requires total == first + second && total' == first' + second' && second == second'
    ensures total + first' == total' + first
  {
  }

  /** One step of `computePossibilities` at a conditional rule, its result written as the sum of its two counts. */
  lemma ConditionalValue(M: Workflows, rules: seq<Rule>, sub: Subrange, fuel: nat)
    requires ValidSubrange(sub) && ComputePossibilities(M, rules, sub, fuel).Some?
    requires rules != [] && rules[0].condition.Some?
    ensures rules[0].condition.value.param in sub.truthMap
    ensures var (s1, s2) := Subdivide(sub, rules[0].condition.value);
            && ValidSubrange(s1) && ValidSubrange(s2) && Width(s1) == Width(sub) && Width(s2) == Width(sub)
            && ComputePossibilities(M, rules[1..], s2, fuel).Some?
            && (IsRejectedRule(rules[0]) ==>
                  ComputePossibilities(M, rules, sub, fuel).value == ComputePossibilities(M, rules[1..], s2, fuel).value)
            && (IsAcceptedRule(rules[0]) ==>
                  ComputePossibilities(M, rules, sub, fuel).value
                  == PossibilitiesNum(s1) + ComputePossibilities(M, rules[1..], s2, fuel).value)
            && (!IsRejectedRule(rules[0]) && !IsAcceptedRule(rules[0]) ==>
                  && rules[0].destination in M && fuel > 0
                  && ComputePossibilities(M, M[rules[0].destination].rules, s1, fuel - 1).Some?
                  && ComputePossibilities(M, rules, sub, fuel).value
                     == ComputePossibilities(M, M[rules[0].destination].rules, s1, fuel - 1).value
                        + ComputePossibilities(M, rules[1..], s2, fuel).value)
  {
    SubdivideSplits(sub, rules[0].condition.value);
  }

  /** On the half meeting the first rule's condition that rule is picked; on the other half the rest decide. */
  lemma SplitPicks(M: Workflows, rules: seq<Rule>, sub: Subrange, fuel: nat)
    requires ValidSubrange(sub) && rules != [] && rules[0].condition.Some? && rules[0].condition.value.param in sub.truthMap
    ensures var (s1, s2) := Subdivide(sub, rules[0].condition.value);
            && ValidSubrange(s1) && ValidSubrange(s2) && Width(s1) == Width(sub) && Width(s2) == Width(sub)
            && (forall p | InBox(p, Width(sub)) && InSubrange(s1, p) :: FirstApplicable(rules, PartOf(p)) == Picked(rules[0]))
            && (forall p | InBox(p, Width(sub)) && InSubrange(s2, p) ::
                  EvalRules(M, rules, PartOf(p), fuel) == EvalRules(M, rules[1..], PartOf(p), fuel))
            && (forall p | InBox(p, Width(sub)) :: InSubrange(sub, p) <==> InSubrange(s1, p) || InSubrange(s2, p))
            && (forall p | InBox(p, Width(sub)) :: !(InSubrange(s1, p) && InSubrange(s2, p)))
  {
    var c := rules[0].condition.value;
    SubdivideSplits(sub, c);
    var (s1, s2) := Subdivide(sub, c);
    forall p | InBox(p, Width(sub)) && InSubrange(s2, p)
      ensures EvalRules(M, rules, PartOf(p), fuel) == EvalRules(M, rules[1..], PartOf(p), fuel)
    {
      assert FirstApplicable(rules, PartOf(p)) == FirstApplicable(rules[1..], PartOf(p));
    }
  }

  lemma SplitRejected(M: Workflows, rules: seq<Rule>, sub: Subrange, fuel: nat)
    requires ValidSubrange(sub) && rules != [] && rules[0].condition.Some? && rules[0].condition.value.param in sub.truthMap
    requires IsRejectedRule(rules[0])
    ensures var s2 := Subdivide(sub, rules[0].condition.value).1;
            ValidSubrange(s2) &&
            SumAll(AcceptedIn(M, rules, sub, fuel), Width(sub)) == SumAll(AcceptedIn(M, rules[1..], s2, fuel), Width(sub))
  {
    SplitPicks(M, rules, sub, fuel);
    var s2 := Subdivide(sub, rules[0].condition.value).1;
    SumAllSame(AcceptedIn(M, rules, sub, fuel), AcceptedIn(M, rules[1..], s2, fuel), Width(sub));
  }

  lemma SplitAccepted(M: Workflows, rules: seq<Rule>, sub: Subrange, fuel: nat)
    requires ValidSubrange(sub) && rules != [] && rules[0].condition.Some? && rules[0].condition.value.param in sub.truthMap
    requires IsAcceptedRule(rules[0])
    ensures var (s1, s2) := Subdivide(sub, rules[0].condition.value);
            ValidSubrange(s1) && ValidSubrange(s2) &&
            SumAll(AcceptedIn(M, rules, sub, fuel), Width(sub)) ==
            PossibilitiesNum(s1) + SumAll(AcceptedIn(M, rules[1..], s2, fuel), Width(sub))
  {
    SplitPicks(M, rules, sub, fuel);
    var (s1, s2) := Subdivide(sub, rules[0].condition.value);
    PossibilitiesCount(s1);
    SumAllSplits(AcceptedIn(M, rules, sub, fuel), Indicator(s1), AcceptedIn(M, rules[1..], s2, fuel), Width(sub));
  }

  lemma SplitJump(M: Workflows, rules: seq<Rule>, sub: Subrange, fuel: nat, s1: Subrange, s2: Subrange, next: seq<Rule>, f: nat)
    requires ValidSubrange(sub) && rules != [] && rules[0].condition.Some? && rules[0].condition.value.param in sub.truthMap
    requires !IsAcceptedRule(rules[0]) && !IsRejectedRule(rules[0]) && rules[0].destination in M && fuel > 0
    requires (s1, s2) == Subdivide(sub, rules[0].condition.value) && ValidSubrange(s1) && ValidSubrange(s2)
    requires next == M[rules[0].destination].rules && f == fuel - 1
    ensures SumAll(AcceptedIn(M, rules, sub, fuel), Width(sub)) ==
            SumAll(AcceptedIn(M, next, s1, f), Width(sub)) + SumAll(AcceptedIn(M, rules[1..], s2, fuel), Width(sub))
  {
    SplitPicks(M, rules, sub, fuel);
    forall p | InBox(p, Width(sub)) && InSubrange(s1, p)
      ensures EvalRules(M, rules, PartOf(p), fuel) == EvalRules(M, M[rules[0].destination].rules, PartOf(p), fuel - 1)
    {
      assert EvalRules(M, rules, PartOf(p), fuel) == Evaluate(M, rules[0].destination, PartOf(p), fuel - 1);
    }
    SumAllSplits(AcceptedIn(M, rules, sub, fuel), AcceptedIn(M, M[rules[0].destination].rules, s1, fuel - 1),
                 AcceptedIn(M, rules[1..], s2, fuel), Width(sub));
  }

  /** `createInitialSubrange` with arrays of length `n`: every rating from 1 to `n - 1` possible. */
  function InitialSubrange(n: nat): (sub: Subrange)
    ensures ValidSubrange(sub) && Width(sub) == n
  {
    var t := seq(n, i => i > 0);
    Subrange(map['x' := t, 'm' := t, 'a' := t, 's' := t])
  }

  /** `createInitialSubrange`: ratings 1 to 4000. */
  function CreateInitialSubrange(): Subrange
  {
    InitialSubrange(4001)
  }

  lemma {:induction false} CountAllButFirst(t: seq<bool>, k: nat)
    requires k <= |t| && forall i | 0 <= i < |t| :: t[i] == (i > 0)
    ensures CountTrueUpTo(t, k) == if k == 0 then 0 else k - 1
  {
    if k > 0 {
      CountAllButFirst(t, k - 1);
    }
  }

  /** The initial sub-box holds `n` to the fourth combinations (`4000^4` for the source's arrays). */
  lemma InitialPossibilities(n: nat)
    ensures PossibilitiesNum(InitialSubrange(n + 1)) == n * n * n * n
  {
    var t := InitialSubrange(n + 1).truthMap['x'];
    CountAllButFirst(t, n + 1);
  }

  /** `Map<String, Workflow>.computePossibilities` with ratings 1 to `n`. */
  function PossibilitiesFromIn(M: Workflows, n: nat, fuel: nat): (r: Option<nat>)
    ensures r.Some? ==> r.value <= n * n * n * n
  {
    InitialPossibilities(n);
    if "in" in M then ComputePossibilities(M, M["in"].rules, InitialSubrange(n + 1), fuel) else None
  }

  /** The indicator of the combinations of ratings 1 to `n` whose parts are accepted from `in`. */
  function AcceptedFromIn(M: Workflows, n: nat, fuel: nat): Rating -> int
  {
    p => if InBox(p, n + 1) && p.x >= 1 && p.m >= 1 && p.a >= 1 && p.s >= 1 && Evaluate(M, "in", PartOf(p), fuel) == Accepted then 1 else 0
  }

  /**
   * Part 2's answer is the number of rating combinations (each rating from 1 to `n`) whose parts
   * `isAccepted` accepts.
   */
  lemma PossibilitiesFromInCounts(M: Workflows, n: nat, fuel: nat)
    requires PossibilitiesFromIn(M, n, fuel).Some?
    ensures PossibilitiesFromIn(M, n, fuel).value == SumAll(AcceptedFromIn(M, n, fuel), n + 1)
  {
    var sub := InitialSubrange(n + 1);
    ComputePossibilitiesCounts(M, M["in"].rules, sub, fuel);
    FromInAgrees(M, n, fuel);
  }

  /** On the box, counting from `in`'s rules over the initial sub-box is counting parts accepted from `in`. */
  lemma FromInAgrees(M: Workflows, n: nat, fuel: nat)
    requires "in" in M
    ensures SumAll(AcceptedIn(M, M["in"].rules, InitialSubrange(n + 1), fuel), n + 1) == SumAll(AcceptedFromIn(M, n, fuel), n + 1)
  {
    var sub := InitialSubrange(n + 1);
    var g, h := AcceptedIn(M, M["in"].rules, sub, fuel), AcceptedFromIn(M, n, fuel);
    forall p: Rating | InBox(p, n + 1) ensures g(p) == h(p) {
      var t := sub.truthMap;
      assert InSubrange(sub, p) <==> t['x'][p.x] && t['m'][p.m] && t['a'][p.a] && t['s'][p.s];
      assert Evaluate(M, "in", PartOf(p), fuel) == EvalRules(M, M["in"].rules, PartOf(p), fuel);
    }
    SumAllSame(g, h, n + 1);
  }

  /** `part1`, on the workflow table as evidently intended. */
  ghost function Part1(ws: seq<Workflow>, parts: seq<MachinePart>, fuel: nat): Option<int>
  {
    AcceptedRatings(PrepareWorkflowsCorrected(ws), parts, fuel)
  }

  /** `part2`, on the workflow table as evidently intended. */
  ghost function Part2(ws: seq<Workflow>, fuel: nat): Option<nat>
  {
    PossibilitiesFromIn(PrepareWorkflowsCorrected(ws), 4000, fuel)
  }

  /** Tables that give every part the same outcome give the same total. */
  lemma {:induction false} AcceptedRatingsSame(M: Workflows, M2: Workflows, parts: seq<MachinePart>, fuel: nat)
    requires forall i | 0 <= i < |parts| :: Evaluate(M2, "in", parts[i], fuel) == Evaluate(M, "in", parts[i], fuel)
    ensures AcceptedRatings(M2, parts, fuel) == AcceptedRatings(M, parts, fuel)
  {
    if parts != [] {
      var init := parts[..|parts| - 1];
      assert forall i | 0 <= i < |init| :: init[i] == parts[i];
      AcceptedRatingsSame(M, M2, init, fuel);
    }
  }

  /** Simplifying the table changes no answer of part 1 the parsed workflows give. */
  lemma Part1Unchanged(ws: seq<Workflow>, parts: seq<MachinePart>, fuel: nat)
    requires NoVerdictNames(ws)
    requires forall i | 0 <= i < |parts| :: Decides(Evaluate(AssociateBy(ws), "in", parts[i], fuel))
    ensures Part1(ws, parts, fuel) == AcceptedRatings(AssociateBy(ws), parts, fuel)
  {
    forall i | 0 <= i < |parts|
      ensures Evaluate(PrepareWorkflowsCorrected(ws), "in", parts[i], fuel) == Evaluate(AssociateBy(ws), "in", parts[i], fuel)
    {
      PrepareWorkflowsCorrectedPreserves(ws, parts[i], fuel);
    }
    AcceptedRatingsSame(AssociateBy(ws), PrepareWorkflowsCorrected(ws), parts, fuel);
  }
}
