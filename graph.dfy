/**
 * The workflow graph: its node and edge table as a transition function, the walks it
 * allows, and a run of the loop over the state object.
 */
module Graph {
  import opened Wrappers
  import opened Lists
  import opened AgentState
  import opened Edges
  import opened Nodes
  import RuleDerivation
  import RuleValidation

  /** The nodes registered on the graph, and the end marker. */
  datatype Node = LoadProfiling | SelectPriorityAttributes | DeriveRules | ValidateRules
                | RefineRules | FormatOutput | End

  /** The entry point. */
  const Entry: Node := LoadProfiling

  /** The edge table: a linear chain except after validation, where the guard's label
      picks derivation again or refinement. */
  function NextNode(n: Node, route: Route): (m: Node)
    ensures n == ValidateRules ==> (m == DeriveRules <==> route == Continue)
    ensures n == ValidateRules && route == Complete ==> m == RefineRules
    ensures n != ValidateRules && n != End ==> m != n && m != LoadProfiling
  {
    match n
    case LoadProfiling => SelectPriorityAttributes
    case SelectPriorityAttributes => DeriveRules
    case DeriveRules => ValidateRules
    case ValidateRules => if route == Continue then DeriveRules else RefineRules
    case RefineRules => FormatOutput
    case FormatOutput => End
    case End => End
  }

  /** Distance to the end along the chain, ignoring the back edge. */
  function Rank(n: Node): nat {
    match n
    case LoadProfiling => 6
    case SelectPriorityAttributes => 5
    case DeriveRules => 4
    case ValidateRules => 3
    case RefineRules => 2
    case FormatOutput => 1
    case End => 0
  }

  /** The nodes visited from `n` when the guard returns `routes` in turn, up to the end or
      until a validation step finds no route left. */
  function Walk(n: Node, routes: seq<Route>): seq<Node>
    decreases |routes|, Rank(n)
  {
    if n == End then [End]
    else if n == ValidateRules then
      if routes == [] then [ValidateRules] else [ValidateRules] + Walk(NextNode(n, routes[0]), routes[1..])
    else [n] + Walk(NextNode(n, Continue), routes)
  }

  /** `k` labels `"continue"`. */
  function Continues(k: nat): (r: seq<Route>)
    ensures |r| == k && forall i :: 0 <= i < k ==> r[i] == Continue
  {
    if k == 0 then [] else Continues(k - 1) + [Continue]
  }

  /** `k` rounds of derivation and validation. */
  function Rounds(k: nat): (r: seq<Node>)
    ensures |r| == 2 * k
    ensures forall i :: 0 <= i < |r| ==> r[i] == (if i % 2 == 0 then DeriveRules else ValidateRules)
  {
    if k == 0 then [] else [DeriveRules, ValidateRules] + Rounds(k - 1)
  }

  /** From derivation, `k` continues and a complete give `k + 1` rounds, then refinement,
      output and the end. */
  lemma {:induction false} WalkFromDerive(k: nat)
    ensures Walk(DeriveRules, Continues(k) + [Complete]) == Rounds(k + 1) + [RefineRules, FormatOutput, End]
  {
    var routes := Continues(k) + [Complete];
    if k == 0 {
      assert routes == [Complete];
      assert Walk(RefineRules, []) == [RefineRules, FormatOutput, End];
    } else {
      assert routes[0] == Continue;
      assert routes[1..] == Continues(k - 1) + [Complete] by {
        ContinuesTail(k);
      }
      WalkFromDerive(k - 1);
    }
  }

  lemma {:induction false} ContinuesTail(k: nat)
    requires k > 0
    ensures Continues(k)[1..] == Continues(k - 1)
  {
    assert |Continues(k)[1..]| == k - 1;
  }

  /** Every run of the graph visits load, selection, one or more rounds, then refinement
      exactly once, output and the end: refinement comes after the last validation and
      never before. */
  lemma WalkShape(k: nat)
    ensures var w := Walk(Entry, Continues(k) + [Complete]);
      && w == [LoadProfiling, SelectPriorityAttributes] + Rounds(k + 1) + [RefineRules, FormatOutput, End]
      && (forall i :: 0 <= i < |w| ==> (w[i] == RefineRules <==> i == 2 * k + 4))
      && w[|w| - 1] == End
  {
    WalkFromDerive(k);
    var w := Walk(Entry, Continues(k) + [Complete]);
    assert w == [LoadProfiling, SelectPriorityAttributes] + Walk(DeriveRules, Continues(k) + [Complete]);
    forall i | 0 <= i < |w| ensures w[i] == RefineRules <==> i == 2 * k + 4 {
      if 2 <= i < 2 * k + 4 {
        assert w[i] == Rounds(k + 1)[i - 2];
      }
    }
  }

  /** A queue in which no attribute repeats and none is the empty name. */
  predicate WellQueued(queue: seq<string>) {
    Distinct(queue) && forall k :: 0 <= k < |queue| ==> queue[k] != ""
  }

  /** The current attribute after `c` validation steps over a well-formed queue. */
  function CurrentAfter(queue: seq<string>, c: nat): Option<string> {
    if c < |queue| then Some(queue[c]) else None
  }

  /** One round: derivation then validation for the current attribute. The iteration
      count goes up by one, the current attribute moves along the queue, and the
      accumulators only grow, keeping every derived rule valid. */
  method Round(st: WorkflowState, agent: Result<RuleDerivation.Oracles>, interp: RuleValidation.Interp)
    modifies st
    ensures st.iterationCount == old(st.iterationCount) + 1
    ensures st.attributesToProcess == old(st.attributesToProcess)
    ensures st.currentAttribute == NextAttribute(old(st.attributesToProcess), old(st.currentAttribute))
    ensures old(st.candidateRules) <= st.candidateRules && old(st.errors) <= st.errors
    ensures old(st.validationResults) <= st.validationResults
    ensures AllValid(old(st.candidateRules)) ==> AllValid(st.candidateRules)
  {
    DeriveStepShape(st.Value(), agent);
    DeriveRulesNode(st, agent);
    ValidateRulesNode(st, interp);
  }

  /** The loop of the graph after the first round: rounds while the guard says
      `"continue"`. */
  method Loop(st: WorkflowState, agent: Result<RuleDerivation.Oracles>, interp: RuleValidation.Interp)
    returns (routes: seq<Route>)
    requires 1 <= st.iterationCount <= MaxIterations
    modifies st
    ensures routes == Continues(|routes|)
    ensures st.iterationCount == old(st.iterationCount) + |routes| <= MaxIterations
    ensures ShouldProcessMoreAttributes(st.Value()) == Complete
    ensures st.attributesToProcess == old(st.attributesToProcess)
    ensures WellQueued(st.attributesToProcess) && old(st.currentAttribute) == CurrentAfter(st.attributesToProcess, old(st.iterationCount)) ==>
      && st.currentAttribute == CurrentAfter(st.attributesToProcess, st.iterationCount)
      && (st.iterationCount == old(st.iterationCount) || st.iterationCount <= |st.attributesToProcess|)
    ensures old(st.candidateRules) <= st.candidateRules && old(st.errors) <= st.errors
    ensures old(st.validationResults) <= st.validationResults
    ensures AllValid(old(st.candidateRules)) ==> AllValid(st.candidateRules)
  {
    ghost var queue := st.attributesToProcess;
    ghost var tracked := WellQueued(queue) && st.currentAttribute == CurrentAfter(queue, st.iterationCount);
    routes := [];
    var route := ShouldProcessMoreAttributes(st.Value());
    while route == Continue
      invariant route == ShouldProcessMoreAttributes(st.Value())
      invariant routes == Continues(|routes|)
      invariant st.iterationCount == old(st.iterationCount) + |routes| <= MaxIterations
      invariant st.attributesToProcess == queue
      invariant tracked ==> st.currentAttribute == CurrentAfter(queue, st.iterationCount)
      invariant tracked ==> routes == [] || st.iterationCount <= |queue|
      invariant old(st.candidateRules) <= st.candidateRules && old(st.errors) <= st.errors
      invariant old(st.validationResults) <= st.validationResults
      invariant AllValid(old(st.candidateRules)) ==> AllValid(st.candidateRules)
      decreases MaxIterations - st.iterationCount
    {
      routes := routes + [Continue];
      if tracked {
        NextAttributeAdvances(queue, st.iterationCount);
      }
      Round(st, agent, interp);
      route := ShouldProcessMoreAttributes(st.Value());
    }
  }

  /** A run of the workflow from selection to refinement over the state object, with the
      guard deciding after each validation step. Loading the profile and formatting the
      output are file input and output and are not part of it. The run ends; the guard
      returned `"continue"` before every round but the first and `"complete"` at the end,
      after at most `max_iterations` validation steps; the accumulators only grew; and the
      refined rules are the refinement of everything derived. Over a well-formed queue every
      queued attribute gets one round, in order, up to the cap. */
  method RunWorkflow(st: WorkflowState, agent: Result<RuleDerivation.Oracles>, interp: RuleValidation.Interp)
    returns (routes: seq<Route>)
    modifies st
    ensures |routes| >= 1 && routes == Continues(|routes| - 1) + [Complete]
    ensures Walk(Entry, routes) == [LoadProfiling, SelectPriorityAttributes] + Rounds(|routes|) + [RefineRules, FormatOutput, End]
    ensures st.iterationCount == |routes| <= MaxIterations
    ensures ShouldProcessMoreAttributes(st.Value()) == Complete
    ensures st.attributesToProcess ==
      SelectedAttributes(old(st.profilingStats), old(st.datasetContext.priorityAttributes))
    ensures old(st.candidateRules) <= st.candidateRules && old(st.errors) <= st.errors
    ensures old(st.validationResults) <= st.validationResults
    ensures AllValid(old(st.candidateRules)) ==> AllValid(st.candidateRules) && AllValid(st.validatedRules)
    ensures st.validatedRules == RefinedNodeRules(st.candidateRules, ResultsById(st.validationResults))
    ensures WellQueued(st.attributesToProcess) ==>
      |routes| == if st.attributesToProcess == [] then 1
                  else if |st.attributesToProcess| < MaxIterations then |st.attributesToProcess|
                  else MaxIterations
  {
    SelectPriorityAttributesNode(st);
    ghost var queue := st.attributesToProcess;
    if WellQueued(queue) && queue != [] {
      NextAttributeAdvances(queue, 0);
    }
    Round(st, agent, interp);
    var more := Loop(st, agent, interp);
    routes := more + [Complete];
    if WellQueued(queue) {
      var c := st.iterationCount;
      assert st.currentAttribute == CurrentAfter(queue, c);
      assert c == 1 || c <= |queue|;
      assert st.currentAttribute.None? || c >= MaxIterations;
    }
    WalkShape(|routes| - 1);
    RefinedNodeRulesShape(st.candidateRules, ResultsById(st.validationResults));
    RefineRulesNode(st);
  }
}
