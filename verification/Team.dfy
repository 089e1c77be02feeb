/** A team of agents (`agents/runtime.py`): a root whose tools include its specialists, all
    of them under the root's one budget. */
module Team {
  import opened Wrappers
  import opened Transcript
  import opened AgentRun
  import opened RunTrace
  import opened AgentLoop

  datatype Spec = Spec(
    id: string, systemPrompt: string, limits: Limits, compacts: bool, typed: bool, verifies: bool,
    canDelegateTo: seq<string>)

  datatype TeamError =
    | UnknownAgent(id: string)
    | NestedDelegation(id: string)
    | DuplicateTool(id: string)
    | ReservedTool

  datatype Result<T> = Ok(value: T) | Err(error: TeamError)

  function Bind(s: Spec, workspace: Limits, delegates: seq<Harness>): Harness {
    Harness(s.id, s.systemPrompt, Clamp(s.limits, workspace), s.compacts, s.typed, s.verifies, delegates)
  }

  /** A specification is bound under its own name, prompt and switches, with every limit the
      smaller of its own and the workspace's. */
  lemma BindExactly(s: Spec, workspace: Limits, delegates: seq<Harness>)
    ensures var h, l := Bind(s, workspace, delegates), Bind(s, workspace, delegates).limits;
            && h == Harness(s.id, s.systemPrompt, l, s.compacts, s.typed, s.verifies, delegates)
            && l.maxSteps <= s.limits.maxSteps && l.maxSteps <= workspace.maxSteps
            && l.maxToolCalls <= s.limits.maxToolCalls && l.maxToolCalls <= workspace.maxToolCalls
            && l.costCeiling <= s.limits.costCeiling && l.costCeiling <= workspace.costCeiling
            && l == Clamp(s.limits, workspace)
  {
    ClampExactly(s.limits, workspace);
  }

  /** A target that `open_team` wires: loaded, and delegating no further. */
  predicate Specialist(specs: map<string, Spec>, id: string) {
    id in specs && specs[id].canDelegateTo == []
  }

  predicate NoRepeat(ids: seq<string>) {
    forall i, j :: 0 <= i < j < |ids| ==> ids[i] != ids[j]
  }

  /** The error names something that is wrong. */
  ghost predicate Fault(specs: map<string, Spec>, rootId: string, e: TeamError) {
    match e
    case UnknownAgent(id) => id !in specs && (id == rootId || (rootId in specs && id in specs[rootId].canDelegateTo))
    case NestedDelegation(id) =>
      rootId in specs && id in specs[rootId].canDelegateTo && id in specs && specs[id].canDelegateTo != []
    case DuplicateTool(id) => rootId in specs && multiset(specs[rootId].canDelegateTo)[id] >= 2
    case ReservedTool =>
      rootId in specs && specs[rootId].typed && FINAL_ANSWER_TOOL in specs[rootId].canDelegateTo
  }

  lemma Twice(ids: seq<string>, i: nat, j: nat)
    requires i < j < |ids| && ids[i] == ids[j]
    ensures multiset(ids)[ids[i]] >= 2
  {
    assert ids == ids[..i] + [ids[i]] + ids[i + 1..j] + [ids[j]] + ids[j + 1..];
  }

  /** `open_team`: a team opens exactly when every target of the root is a specialist, none is
      named twice and none takes the name of a typed root's final answer; it is then one
      level deep, in the declared order. */
  method OpenTeam(specs: map<string, Spec>, rootId: string, workspace: Limits) returns (r: Result<Harness>)
    requires forall id :: id in specs ==> specs[id].id == id
    ensures r.Ok? <==>
              && rootId in specs
              && (forall id :: id in specs[rootId].canDelegateTo ==> id in specs && specs[id].canDelegateTo == [])
              && (forall i, j :: 0 <= i < j < |specs[rootId].canDelegateTo| ==>
                    specs[rootId].canDelegateTo[i] != specs[rootId].canDelegateTo[j])
              && (specs[rootId].typed ==> FINAL_ANSWER_TOOL !in specs[rootId].canDelegateTo)
    ensures r.Err? ==> Fault(specs, rootId, r.error)
    ensures r.Ok? ==>
              && OneLevel(r.value)
              && r.value == Bind(specs[rootId], workspace, r.value.delegates)
              && |r.value.delegates| == |specs[rootId].canDelegateTo|
              && forall i :: 0 <= i < |r.value.delegates| ==>
                   var id := specs[rootId].canDelegateTo[i];
                   id in specs && r.value.delegates[i] == Bind(specs[id], workspace, [])
  {
    if rootId !in specs {
      return Err(UnknownAgent(rootId));
    }
    hide Bind;
    var targets := specs[rootId].canDelegateTo;
    var error, delegates := BindAll(specs, targets, workspace);
    if error.Some? {
      return Err(error.value);
    }
    error := Repeated(delegates, targets);
    if error.Some? {
      return Err(error.value);
    }
    if specs[rootId].typed && exists i :: 0 <= i < |delegates| && delegates[i].id == FINAL_ANSWER_TOOL {
      return Err(ReservedTool);
    }
    assert forall i :: 0 <= i < |targets| ==> delegates[i].id == targets[i];
    NoFurther(specs, targets, workspace, delegates);
    BoundRoot(specs[rootId], workspace, delegates);
    return Ok(Bind(specs[rootId], workspace, delegates));
  }

  lemma BoundRoot(s: Spec, workspace: Limits, delegates: seq<Harness>)
    ensures Bind(s, workspace, delegates).delegates == delegates
  {
  }

  lemma NoFurther(specs: map<string, Spec>, targets: seq<string>, workspace: Limits, delegates: seq<Harness>)
    requires |delegates| == |targets| && forall i :: 0 <= i < |targets| ==>
               targets[i] in specs && delegates[i] == Bind(specs[targets[i]], workspace, [])
    ensures forall d :: d in delegates ==> d.delegates == []
  {
  }

  /** The loop that binds the targets, up to the first that is missing or delegates itself. */
  method BindAll(specs: map<string, Spec>, targets: seq<string>, workspace: Limits)
    returns (error: Option<TeamError>, delegates: seq<Harness>)
    requires forall id :: id in specs ==> specs[id].id == id
    ensures error.None? <==> forall id :: id in targets ==> id in specs && specs[id].canDelegateTo == []
    ensures error.Some? ==>
              || (error.value.UnknownAgent? && error.value.id in targets && error.value.id !in specs)
              || (error.value.NestedDelegation? && error.value.id in targets && error.value.id in specs
                  && specs[error.value.id].canDelegateTo != [])
    ensures error.None? ==>
              && |delegates| == |targets|
              && forall i :: 0 <= i < |targets| ==>
                   && targets[i] in specs && delegates[i] == Bind(specs[targets[i]], workspace, [])
                   && delegates[i].id == targets[i]
  {
    delegates := [];
    for i := 0 to |targets|
      invariant |delegates| == i
      invariant forall j :: 0 <= j < i ==>
                  && Specialist(specs, targets[j]) && delegates[j] == Bind(specs[targets[j]], workspace, [])
                  && delegates[j].id == targets[j]
    {
      assert targets[i] in targets;
      if targets[i] !in specs {
        return Some(UnknownAgent(targets[i])), delegates;
      }
      if specs[targets[i]].canDelegateTo != [] {
        return Some(NestedDelegation(targets[i])), delegates;
      }
      delegates := delegates + [Bind(specs[targets[i]], workspace, [])];
    }
    error := None;
  }

  /** The loop that adds the delegates as tools, up to the first whose name is taken. */
  method Repeated(delegates: seq<Harness>, targets: seq<string>) returns (error: Option<TeamError>)
    requires |delegates| == |targets| && forall i :: 0 <= i < |targets| ==> delegates[i].id == targets[i]
    ensures error.None? <==> NoRepeat(targets)
    ensures error.Some? ==> error.value.DuplicateTool? && multiset(targets)[error.value.id] >= 2
  {
    for i := 0 to |delegates|
      invariant NoRepeat(targets[..i])
    {
      if exists j :: 0 <= j < i && delegates[j].id == delegates[i].id {
        ghost var j :| 0 <= j < i && delegates[j].id == delegates[i].id;
        Twice(targets, j, i);
        return Some(DuplicateTool(delegates[i].id));
      }
    }
    assert targets[..|delegates|] == targets;
    error := None;
  }

  /** What is guaranteed of all the calls and delegated runs of the root run `run`. */
  ghost predicate Bounded(root: Harness, run: nat, longest: nat, calls: seq<Call>, runs: seq<Record>) {
    && |calls| <= Pos(root.limits.maxSteps) + Pos(root.limits.maxToolCalls) * longest
    && Sound(calls) && Continues(calls)
    && Affordable(0.0, root.limits.costCeiling, calls)
    && (calls != [] ==> Charged(calls) < root.limits.costCeiling + calls[|calls| - 1].charged)
    && Charged(calls) == OwnCost(calls, run) + Reported(runs, run)
  }

  lemma FactsAreBounds(root: Harness, run: nat, newest: nat, longest: nat, calls: seq<Call>, runs: seq<Record>)
    requires OneLevel(root) && forall d :: d in root.delegates ==> Pos(d.limits.maxSteps) <= longest
    requires |calls| <= Completions(root) && RunFacts(run, newest, 0.0, root.limits.costCeiling, calls, runs)
    ensures Bounded(root, run, longest, calls, runs)
  {
    hide Sound, Continues, Completions, OneLevel, Affordable;
    TeamBound(root, longest);
    if calls != [] {
      OvershootIsOneCall(0.0, root.limits.costCeiling, calls);
    }
  }

  /** A root run of a one-level team under a fresh budget. Whatever the model, the tools and
      the specialists do: it ends; it makes at most the root's steps plus, per tool call of
      the root, the steps of the longest specialist; every call is made by the agent and for
      the task of its run, below the ceiling and before its run's deadline, so the spend stays
      below the ceiling but for the last call; no tool is executed past a deadline either; the
      cost it reports is the cost of its own calls plus what its specialists report; and
      neither the root nor any specialist executes a block of one to three tool calls three
      times in a row. */
  method RunTeam(root: Harness, task: string, w: Outside, ghost longest: nat)
    returns (outcome: Outcome, ghost o: Opening, ghost calls: seq<Call>, ghost runs: seq<Record>, ghost uses: seq<Use>)
    requires OneLevel(root)
    requires forall d :: d in root.delegates ==> Pos(d.limits.maxSteps) <= longest
    modifies w`asked, w`log, w`ran, w`records
    ensures o.agent == root && o.task == task && o.run == |old(w.asked)| && o.parent == None
    ensures w.log == old(w.log) + calls && w.ran == old(w.ran) + uses
    ensures w.records == old(w.records) + runs + [Record(o.run, None, root, task, Charged(calls))]
    ensures Bounded(root, o.run, longest, calls, runs)
    ensures Assigned(o, calls, runs)
    ensures old(w.asked) <= w.asked && AllInTime(w.asked, calls, uses)
    ensures NoneRepeats(uses)
    ensures outcome.Finished? ==>
              && outcome.result.cost == Charged(calls)
              && outcome.result.toolCalls ==
                 |ExecutedBy(uses, o.run)| + if outcome.result.stop == NoProgress then 1 else 0
  {
    hide Lawful, RunFacts, Bounded, NoneRepeats, OneLevel, Completions, Delivered, Kept, Charged, AllInTime, Assigned;
    var budget := new RunBudget(root.limits.costCeiling);
    ghost var t, tail;
    outcome, t, tail := Run(root, None, task, budget, w);
    o, calls, runs, uses := Start(t), Calls(t), Runs(t), Uses(t);
    LawfulRunFrom(t, o);
    EveryCallOnTask(t);
    NoRunRepeatsItself(t);
    NothingPastDeadline(t);
    StartStays(t);
    LaterInTime(Chronicle(t), w.asked, calls, uses);
    FactsAreBounds(root, o.run, Newest(t), longest, calls, runs);
  }
}
