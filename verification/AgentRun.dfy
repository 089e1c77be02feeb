/** What an agent run is made of (`agents/harness.py`, `agents/runtime.py`,
    `models/gateway.py`), and what is said about the model calls and the tool calls that it
    and the runs it delegates to make. */
module AgentRun {
  import opened Wrappers
  import opened Transcript
  import Thrash

  /** What a tool is asked to do: its name, and its arguments as text. */
  datatype Request = Request(name: string, arguments: string)

  /** `task` is the argument of that name, trimmed; empty if there is none. */
  datatype ToolCall = ToolCall(id: string, request: Request, task: string)

  datatype Reply = Reply(text: string, calls: seq<ToolCall>, tokensIn: nat, cost: real)

  /** What a provider call does: it answers, the operator's cross-run budget refuses it, or
      it raises something else. */
  datatype Completion = Replies(reply: Reply) | PeriodCapSpent | Raises

  /** A question that a run asks the world outside, with the answer it gets. */
  datatype Exchange =
    | NewRun
    | ReadClock(now: real)
    | AskModel(answer: Completion)
    | UseTool(text: string)
    | VerifyAnswer(ok: bool)
    | ReadSkills(names: seq<string>)

  datatype Limits = Limits(maxSteps: int, maxToolCalls: int, maxTokens: int, timeout: real, costCeiling: real)

  /** An agent bound to its limits and to the agents it may delegate to. `verifies`: the
      spec asks for verification and a verifier is there. */
  datatype Harness = Harness(
    id: string, systemPrompt: string, limits: Limits, compacts: bool, typed: bool, verifies: bool,
    delegates: seq<Harness>)

  const FINAL_ANSWER_TOOL := "final_answer"

  /** The spec's limits clamped to the workspace's. */
  function Clamp(spec: Limits, workspace: Limits): Limits {
    Limits(
      Min(spec.maxSteps, workspace.maxSteps), Min(spec.maxToolCalls, workspace.maxToolCalls),
      Min(spec.maxTokens, workspace.maxTokens),
      if spec.timeout <= workspace.timeout then spec.timeout else workspace.timeout,
      if spec.costCeiling <= workspace.costCeiling then spec.costCeiling else workspace.costCeiling)
  }

  function Min(a: int, b: int): int { if a <= b then a else b }

  function Pos(n: int): nat { if n < 0 then 0 else n }

  function Ids(calls: seq<ToolCall>): seq<string> {
    seq(|calls|, i requires 0 <= i < |calls| => calls[i].id)
  }

  function AssistantMessage(r: Reply): Message {
    Assistant(r.text, Ids(r.calls))
  }

  /** The reply's input filled at least seven tenths of the context limit. */
  predicate FillsWindow(h: Harness, r: Reply) {
    10 * r.tokensIn >= 7 * h.limits.maxTokens
  }

  /** Every limit is the smaller of the two. */
  lemma ClampExactly(spec: Limits, workspace: Limits)
    ensures var l := Clamp(spec, workspace);
            && l.maxSteps <= spec.maxSteps && l.maxSteps <= workspace.maxSteps
            && l.maxToolCalls <= spec.maxToolCalls && l.maxToolCalls <= workspace.maxToolCalls
            && l.maxTokens <= spec.maxTokens && l.maxTokens <= workspace.maxTokens
            && l.timeout <= spec.timeout && l.timeout <= workspace.timeout
            && l.costCeiling <= spec.costCeiling && l.costCeiling <= workspace.costCeiling
            && l.maxSteps in {spec.maxSteps, workspace.maxSteps}
            && l.maxToolCalls in {spec.maxToolCalls, workspace.maxToolCalls}
            && l.maxTokens in {spec.maxTokens, workspace.maxTokens}
            && l.timeout in {spec.timeout, workspace.timeout}
            && l.costCeiling in {spec.costCeiling, workspace.costCeiling}
  {
  }

  /** A window is full from seven tenths of the context limit on. */
  lemma FullFromSevenTenths(h: Harness, r: Reply)
    ensures FillsWindow(h, r) <==> r.tokensIn as real >= 0.7 * h.limits.maxTokens as real
  {
    assert 10.0 * (0.7 * h.limits.maxTokens as real) == (7 * h.limits.maxTokens) as real;
    assert 10.0 * r.tokensIn as real == (10 * r.tokensIn) as real;
  }

  /** The first call of a typed agent's batch that submits the final answer. */
  function FinalCall(h: Harness, calls: seq<ToolCall>): (f: Option<ToolCall>)
    ensures f.Some? ==> f.value in calls && f.value.request.name == FINAL_ANSWER_TOOL && h.typed
    ensures f.None? && h.typed ==> forall c :: c in calls ==> c.request.name != FINAL_ANSWER_TOOL
  {
    if !h.typed || calls == [] then None
    else if calls[0].request.name == FINAL_ANSWER_TOOL then Some(calls[0])
    else FinalCall(h, calls[1..])
  }

  /** It is the first such call. */
  lemma {:induction false} FinalCallIsFirst(h: Harness, calls: seq<ToolCall>) returns (i: nat)
    requires FinalCall(h, calls).Some?
    ensures i < |calls| && calls[i] == FinalCall(h, calls).value
    ensures forall j :: 0 <= j < i ==> calls[j].request.name != FINAL_ANSWER_TOOL
    decreases |calls|
  {
    if calls[0].request.name == FINAL_ANSWER_TOOL {
      i := 0;
    } else {
      i := FinalCallIsFirst(h, calls[1..]);
      i := i + 1;
    }
  }

  /** The cycle detector's name for a request. */
  function Signature(r: Request): string {
    r.name + ":" + r.arguments
  }

  function Requests(calls: seq<ToolCall>): seq<Request> {
    seq(|calls|, i requires 0 <= i < |calls| => calls[i].request)
  }

  function Signatures(calls: seq<ToolCall>): seq<string> {
    Thrash.Map(Signature, Requests(calls))
  }

  predicate Plain(r: Request) {
    ':' !in r.name
  }

  predicate AllPlain(calls: seq<ToolCall>) {
    forall i :: 0 <= i < |calls| ==> Plain(calls[i].request)
  }

  /** Requests with plain names have one signature exactly if they ask one tool for one
      thing. */
  lemma SignatureTells(a: Request, b: Request)
    requires Plain(a) && Plain(b)
    ensures Signature(a) == Signature(b) <==> a.name == b.name && a.arguments == b.arguments
  {
    if |a.name| < |b.name| {
      ColonTells(a, b);
    } else if |b.name| < |a.name| {
      ColonTells(b, a);
    } else if Signature(a) == Signature(b) {
      assert a.name == Signature(a)[..|a.name|] && b.name == Signature(b)[..|b.name|];
      assert a.arguments == Signature(a)[|a.name| + 1..] && b.arguments == Signature(b)[|b.name| + 1..];
    }
  }

  /** The shorter name's signature has its colon where the longer name has none. */
  lemma ColonTells(a: Request, b: Request)
    requires Plain(b) && |a.name| < |b.name|
    ensures Signature(a) != Signature(b)
  {
    assert Signature(a)[|a.name|] == ':' && Signature(b)[|a.name|] == b.name[|a.name|];
  }

  /** Names with a colon can be confused. */
  lemma ColonConfuses()
    ensures Signature(Request("a:b", "c")) == Signature(Request("a", "b:c"))
  {
    assert "a:b" + ":" + "c" == "a" + ":" + "b:c";
  }

  /** Signatures repeat whenever requests do, and, of plain names, only then. */
  lemma SignaturesTell(calls: seq<ToolCall>)
    ensures Thrash.Thrashing(Requests(calls)) ==> Thrash.Thrashing(Signatures(calls))
    ensures AllPlain(calls) ==> (Thrash.Thrashing(Signatures(calls)) ==> Thrash.Thrashing(Requests(calls)))
  {
    hide Signature, Thrash.Thrashing;
    if Thrash.Thrashing(Requests(calls)) {
      Thrash.RenamedThrashes(Signature, Requests(calls));
    }
    if AllPlain(calls) && Thrash.Thrashing(Signatures(calls)) {
      forall x, y | x in Requests(calls) && y in Requests(calls) && Signature(x) == Signature(y) ensures x == y {
        SignatureTells(x, y);
      }
      Thrash.NamedApartThrashes(Signature, Requests(calls));
    }
  }

  /** The agent that a tool name delegates to. */
  function Delegate(hs: seq<Harness>, name: string): (d: Option<Harness>)
    ensures d.Some? ==> d.value in hs && d.value.id == name
    ensures d.None? ==> forall h :: h in hs ==> h.id != name
  {
    if hs == [] then None else if hs[0].id == name then Some(hs[0]) else Delegate(hs[1..], name)
  }

  /** The agent to which a tool call hands its task, if there is one to hand. */
  function Target(h: Harness, tc: ToolCall): (d: Option<Harness>)
    ensures d.Some? ==> d.value in h.delegates && d.value.id == tc.request.name && tc.task != ""
    ensures d.None? <==> tc.task == "" || forall x :: x in h.delegates ==> x.id != tc.request.name
  {
    if tc.task != "" then Delegate(h.delegates, tc.request.name) else None
  }

  const NO_TASK := "error: delegation requires a non-empty `task`"

  /** What a reply is charged: never less than nothing. */
  function ChargeFor(cost: real): real {
    if cost > 0.0 then cost else 0.0
  }

  function ChargeOf(reply: Option<Reply>): real {
    if reply.Some? then ChargeFor(reply.value.cost) else 0.0
  }

  /** One call to the provider: the run that made it, the transcript it sent, what came back,
      what was charged for it, and the turn at which it was made. */
  datatype Call = Call(
    agent: Harness, run: nat, task: string, transcript: seq<Message>, reply: Option<Reply>, charged: real, at: nat)

  /** A tool that a run executed, and the turn after which it was admitted. */
  datatype Use = Use(agent: Harness, run: nat, request: Request, at: nat)

  /** A finished run as the recorder keeps it. */
  datatype Record = Record(run: nat, parent: Option<nat>, agent: Harness, task: string, cost: real)

  /** No other call of the batch carries the id of the call that submits the answer. */
  predicate Unambiguous(c: Call) {
    c.reply.Some? ==>
      var f := FinalCall(c.agent, c.reply.value.calls);
      f.Some? ==> multiset(Ids(c.reply.value.calls))[f.value.id] == 1
  }

  /** What the reply asks the run to execute: its batch, unless that submits the answer or
      the run hands off instead. */
  function Batch(c: Call): seq<ToolCall> {
    if c.reply.None? then []
    else
      var r := c.reply.value;
      if FinalCall(c.agent, r.calls).Some? || (FillsWindow(c.agent, r) && !c.agent.compacts) then []
      else r.calls
  }

  /** No reply to the run `run` was ambiguous. */
  ghost predicate OwnClean(calls: seq<Call>, run: nat) {
    forall c :: c in calls && c.run == run ==> Unambiguous(c)
  }

  function Charged(calls: seq<Call>): real {
    if calls == [] then 0.0 else Charged(calls[..|calls| - 1]) + calls[|calls| - 1].charged
  }

  function OwnCost(calls: seq<Call>, run: nat): real {
    if calls == [] then 0.0
    else OwnCost(calls[..|calls| - 1], run)
         + if calls[|calls| - 1].run == run then calls[|calls| - 1].charged else 0.0
  }

  /** What the runs that `run` delegated to reported. */
  function Reported(runs: seq<Record>, run: nat): real {
    if runs == [] then 0.0
    else Reported(runs[..|runs| - 1], run)
         + if runs[|runs| - 1].parent == Some(run) then runs[|runs| - 1].cost else 0.0
  }

  /** The last call that `run` made. */
  function LastOf(calls: seq<Call>, run: nat): Option<Call> {
    if calls == [] then None
    else if calls[|calls| - 1].run == run then Some(calls[|calls| - 1])
    else LastOf(calls[..|calls| - 1], run)
  }

  /** What `run` executed, in order. */
  function ExecutedBy(uses: seq<Use>, run: nat): seq<Request> {
    if uses == [] then []
    else ExecutedBy(uses[..|uses| - 1], run)
         + if uses[|uses| - 1].run == run then [uses[|uses| - 1].request] else []
  }

  /** What an agent's transcript is once the reply to `c` is in: the transcript sent, the
      reply, and the compaction that a full window calls for. */
  function Grown(c: Call): seq<Message>
    requires c.reply.Some?
  {
    var ms := c.transcript + [AssistantMessage(c.reply.value)];
    if FillsWindow(c.agent, c.reply.value) then CompactedForm(ms) else ms
  }

  /** The transcript `ms` of the call that comes after `c`, when the batch of `c` was given
      the results `results` and the run then asked `gap`: a refused answer is followed by what
      was wrong with it, a batch by its results and the skills they triggered. */
  ghost predicate Follows(c: Call, results: seq<Message>, gap: seq<Exchange>, ms: seq<Message>)
    requires c.reply.Some?
  {
    var grown, calls := Grown(c), c.reply.value.calls;
    match FinalCall(c.agent, calls)
    case Some(f) =>
      || (gap == [] && ms == grown + FinalResults(Ids(calls), f.id, SchemaError))
      || (gap == [VerifyAnswer(false)] &&
          ms == grown + FinalResults(Ids(calls), f.id, Accepted) + [User(VerifierFeedback)])
    case None =>
      if calls == [] then
        || (gap == [] && ms == grown + [User(FormatFeedback)])
        || (gap == [VerifyAnswer(false)] && ms == grown + [User(VerifierFeedback)])
      else
        exists names :: gap == [ReadSkills(names)] && ms == grown + results + Disclosed(names)
  }

  /** What the next transcript adds to the last one and its reply. A refused answer adds what
      was wrong with it: its format or its schema without a verdict, the verifier's objection
      after one. A batch adds the results and then every skill that it triggered. */
  lemma FollowsExactly(c: Call, results: seq<Message>, gap: seq<Exchange>, ms: seq<Message>)
    requires c.reply.Some? && Follows(c, results, gap, ms)
    ensures var calls := c.reply.value.calls;
            var n := |Grown(c)|;
            && n <= |ms| && ms[..n] == Grown(c)
            && (calls == [] ==>
                  || (gap == [] && ms[n..] == [User(FormatFeedback)])
                  || (gap == [VerifyAnswer(false)] && ms[n..] == [User(VerifierFeedback)]))
            && (FinalCall(c.agent, calls).Some? ==>
                  var id := FinalCall(c.agent, calls).value.id;
                  || (gap == [] && ms[n..] == SkippedResults(Ids(calls), id) + [Tool(id, SchemaError)])
                  || (gap == [VerifyAnswer(false)] &&
                      ms[n..] == SkippedResults(Ids(calls), id) + [Tool(id, Accepted), User(VerifierFeedback)]))
            && (calls != [] && FinalCall(c.agent, calls).None? ==>
                  && |gap| == 1 && gap[0].ReadSkills?
                  && |ms| == n + |results| + |gap[0].names|
                  && ms[n..n + |results|] == results
                  && forall i :: 0 <= i < |gap[0].names| ==> ms[n + |results| + i] == User(Skill(gap[0].names[i])))
  {
    hide Grown, SkippedResults, Ids;
    var calls, g := c.reply.value.calls, Grown(c);
    if FinalCall(c.agent, calls).Some? {
      var id := FinalCall(c.agent, calls).value.id;
      FinalIsLast(Ids(calls), id, SchemaError);
      FinalIsLast(Ids(calls), id, Accepted);
      var skipped := SkippedResults(Ids(calls), id);
      assert g + (skipped + [Tool(id, Accepted)]) + [User(VerifierFeedback)] ==
             g + (skipped + [Tool(id, Accepted), User(VerifierFeedback)]);
    } else if calls != [] {
      var names :| gap == [ReadSkills(names)] && ms == g + results + Disclosed(names);
    }
  }

  /** An ambiguous reply leaves the next transcript invalid. */
  lemma AmbiguityShows(c: Call, results: seq<Message>, gap: seq<Exchange>, ms: seq<Message>)
    requires c.reply.Some? && !Unambiguous(c) && Follows(c, results, gap, ms)
    ensures !ProtocolValid(ms)
  {
    hide CompactedForm, FinalResults, ProtocolValid;
    var calls, grown := c.reply.value.calls, Grown(c);
    var f, ids := FinalCall(c.agent, calls).value, Ids(calls);
    var i :| 0 <= i < |calls| && calls[i] == f;
    assert ids[i] == f.id;
    EndsWithReply(c);
    var before := grown[..|grown| - 1];
    SharedIdStaysInvalid(before, c.reply.value.text, ids, f.id, SchemaError, []);
    SharedIdStaysInvalid(before, c.reply.value.text, ids, f.id, Accepted, [User(VerifierFeedback)]);
    assert grown + FinalResults(ids, f.id, SchemaError) + [] == grown + FinalResults(ids, f.id, SchemaError);
  }

  lemma EndsWithReply(c: Call)
    requires c.reply.Some?
    ensures var grown := Grown(c);
            grown != [] && grown == grown[..|grown| - 1] + [Assistant(c.reply.value.text, Ids(c.reply.value.calls))]
  {
    var ms := c.transcript + [AssistantMessage(c.reply.value)];
    CompactedEnd(ms);
  }

  // ----- what holds of the calls made during a run, delegated runs included -----

  /** Every call was made with money left. */
  ghost predicate Affordable(spent: real, ceiling: real, calls: seq<Call>) {
    forall i :: 0 <= i < |calls| ==> spent + Charged(calls[..i]) < ceiling
  }

  ghost predicate Spoiled(last: Option<Call>) {
    last.Some? && !Unambiguous(last.value)
  }

  /** The call `c`, made after `before`, sends a transcript that starts with its agent's
      system message and its run's task. As long as no earlier reply to the same run was
      ambiguous it answers every tool call in place; right after an ambiguous one it does
      not. */
  ghost predicate Sends(before: seq<Call>, c: Call) {
    && Anchored(c.transcript, c.agent.systemPrompt, c.task)
    && (OwnClean(before, c.run) ==> ProtocolValid(c.transcript))
    && (Spoiled(LastOf(before, c.run)) ==> !ProtocolValid(c.transcript))
  }

  ghost predicate Sound(calls: seq<Call>) {
    forall i :: 0 <= i < |calls| ==> Sends(calls[..i], calls[i])
  }

  /** Each transcript extends the one that its run sent before it. */
  ghost predicate Continues(calls: seq<Call>) {
    forall i :: 0 <= i < |calls| ==> Extends(LastOf(calls[..i], calls[i].run), calls[i].transcript)
  }

  ghost predicate Extends(last: Option<Call>, ms: seq<Message>) {
    last.Some? ==> last.value.reply.Some? && Grown(last.value) <= ms
  }

  /** Run ids between `low` and `high`. */
  ghost predicate Within(calls: seq<Call>, low: nat, high: nat) {
    forall c :: c in calls ==> low <= c.run <= high
  }

  /** Records of runs that a run in that range delegated to. */
  ghost predicate Below(runs: seq<Record>, low: nat, high: nat) {
    forall r :: r in runs ==> r.parent.Some? && low <= r.parent.value <= high
  }

  ghost predicate RunFacts(run: nat, newest: nat, spent: real, ceiling: real, calls: seq<Call>, runs: seq<Record>) {
    && run <= newest && Within(calls, run, newest) && Below(runs, run, newest)
    && Affordable(spent, ceiling, calls)
    && Sound(calls)
    && Continues(calls)
    && Charged(calls) == OwnCost(calls, run) + Reported(runs, run)
  }

  lemma EmptyRun(run: nat, spent: real, ceiling: real)
    ensures RunFacts(run, run, spent, ceiling, [], [])
  {
  }

  lemma AddCall(run: nat, newest: nat, spent: real, ceiling: real, calls: seq<Call>, runs: seq<Record>, c: Call)
    requires RunFacts(run, newest, spent, ceiling, calls, runs)
    requires c.run == run && spent + Charged(calls) < ceiling
    requires Sends(calls, c) && Extends(LastOf(calls, run), c.transcript)
    ensures RunFacts(run, newest, spent, ceiling, calls + [c], runs)
  {
    hide Affordable, Sound, Continues, Charged, OwnCost, Reported, Extends, Sends;
    AddSums(calls, c);
    AddAffordable(spent, ceiling, calls, c);
    AddSound(calls, c);
    AddContinues(calls, c);
  }

  lemma AddSums(calls: seq<Call>, c: Call)
    ensures Charged(calls + [c]) == Charged(calls) + c.charged
    ensures OwnCost(calls + [c], c.run) == OwnCost(calls, c.run) + c.charged
    ensures LastOf(calls + [c], c.run) == Some(c)
  {
    assert (calls + [c])[..|calls|] == calls;
  }

  lemma AddAffordable(spent: real, ceiling: real, calls: seq<Call>, c: Call)
    requires Affordable(spent, ceiling, calls) && spent + Charged(calls) < ceiling
    ensures Affordable(spent, ceiling, calls + [c])
  {
    hide Charged;
    forall i | 0 <= i <= |calls| ensures spent + Charged((calls + [c])[..i]) < ceiling {
      assert (calls + [c])[..i] == calls[..i];
      assert calls[..|calls|] == calls;
    }
  }

  lemma AddSound(calls: seq<Call>, c: Call)
    requires Sound(calls) && Sends(calls, c)
    ensures Sound(calls + [c])
  {
    hide Sends;
    forall i | 0 <= i <= |calls| ensures Sends((calls + [c])[..i], (calls + [c])[i]) {
      assert (calls + [c])[..i] == calls[..i];
      assert calls[..|calls|] == calls;
    }
  }

  lemma AddContinues(calls: seq<Call>, c: Call)
    requires Continues(calls) && Extends(LastOf(calls, c.run), c.transcript)
    ensures Continues(calls + [c])
  {
    hide LastOf, Extends;
    forall i | 0 <= i <= |calls|
      ensures Extends(LastOf((calls + [c])[..i], (calls + [c])[i].run), (calls + [c])[i].transcript)
    {
      assert (calls + [c])[..i] == calls[..i];
      assert calls[..|calls|] == calls;
    }
  }

  lemma {:induction false} ChargedConcat(a: seq<Call>, b: seq<Call>)
    ensures Charged(a + b) == Charged(a) + Charged(b)
    decreases |b|
  {
    if b == [] {
      assert a + b == a;
    } else {
      assert (a + b)[..|a + b| - 1] == a + b[..|b| - 1];
      ChargedConcat(a, b[..|b| - 1]);
    }
  }

  /** The calls of other runs, made later, are none of this run's. */
  lemma {:induction false} OthersAreNotOwn(a: seq<Call>, b: seq<Call>, run: nat)
    requires forall c :: c in b ==> c.run != run
    ensures OwnCost(a + b, run) == OwnCost(a, run)
    ensures LastOf(a + b, run) == LastOf(a, run)
    decreases |b|
  {
    if b == [] {
      assert a + b == a;
    } else {
      assert (a + b)[..|a + b| - 1] == a + b[..|b| - 1];
      assert b[|b| - 1] in b;
      OthersAreNotOwn(a, b[..|b| - 1], run);
    }
  }

  /** Nor are those made before it began. */
  lemma {:induction false} EarlierAreNotOwn(a: seq<Call>, b: seq<Call>, run: nat)
    requires forall c :: c in a ==> c.run != run
    ensures LastOf(a + b, run) == LastOf(b, run)
    decreases |b|
  {
    if b == [] {
      assert a + b == a;
      NoneOwn(a, run);
    } else {
      assert (a + b)[..|a + b| - 1] == a + b[..|b| - 1];
      EarlierAreNotOwn(a, b[..|b| - 1], run);
    }
  }

  lemma {:induction false} NoneOwn(a: seq<Call>, run: nat)
    requires forall c :: c in a ==> c.run != run
    ensures LastOf(a, run) == None
    decreases |a|
  {
    if a != [] {
      assert a[|a| - 1] in a;
      NoneOwn(a[..|a| - 1], run);
    }
  }

  lemma {:induction false} OthersAreNotReported(a: seq<Record>, b: seq<Record>, run: nat)
    requires forall r :: r in b ==> r.parent != Some(run)
    ensures Reported(a + b, run) == Reported(a, run)
    decreases |b|
  {
    if b == [] {
      assert a + b == a;
    } else {
      assert (a + b)[..|a + b| - 1] == a + b[..|b| - 1];
      assert b[|b| - 1] in b;
      OthersAreNotReported(a, b[..|b| - 1], run);
    }
  }

  /** The calls of a delegated run, made under the same budget, and the record it leaves. */
  lemma AddRun(run: nat, newest: nat, spent: real, ceiling: real, calls: seq<Call>, runs: seq<Record>,
               below: nat, newer: nat, later: real, sub: seq<Call>, subRuns: seq<Record>, record: Record)
    requires RunFacts(run, newest, spent, ceiling, calls, runs)
    requires newest < below && later == spent + Charged(calls)
    requires RunFacts(below, newer, later, ceiling, sub, subRuns)
    requires record.parent == Some(run) && record.cost == Charged(sub)
    ensures RunFacts(run, newer, spent, ceiling, calls + sub, runs + subRuns + [record])
  {
    hide Affordable, Sound, Continues, Charged, OwnCost, Reported;
    ChargedConcat(calls, sub);
    OthersAreNotOwn(calls, sub, run);
    OthersAreNotReported(runs, subRuns, run);
    OneMoreReport(runs + subRuns, record, run);
    AffordableConcat(spent, ceiling, calls, sub);
    SoundConcat(calls, sub, newest);
    ContinuesConcat(calls, sub, newest);
  }

  lemma OneMoreReport(runs: seq<Record>, r: Record, run: nat)
    requires r.parent == Some(run)
    ensures Reported(runs + [r], run) == Reported(runs, run) + r.cost
  {
    assert (runs + [r])[..|runs|] == runs;
  }

  lemma AffordableConcat(spent: real, ceiling: real, a: seq<Call>, b: seq<Call>)
    requires Affordable(spent, ceiling, a) && Affordable(spent + Charged(a), ceiling, b)
    ensures Affordable(spent, ceiling, a + b)
  {
    hide Charged;
    forall i | 0 <= i < |a + b|
      ensures spent + Charged((a + b)[..i]) < ceiling
    {
      if i < |a| {
        assert (a + b)[..i] == a[..i];
      } else {
        assert (a + b)[..i] == a + b[..i - |a|];
        ChargedConcat(a, b[..i - |a|]);
      }
    }
  }

  lemma SoundConcat(a: seq<Call>, b: seq<Call>, newest: nat)
    requires Sound(a) && Sound(b)
    requires (forall c :: c in a ==> c.run <= newest) && forall c :: c in b ==> newest < c.run
    ensures Sound(a + b)
  {
    hide Sends;
    forall i | 0 <= i < |a + b| ensures Sends((a + b)[..i], (a + b)[i]) {
      if i < |a| {
        assert (a + b)[..i] == a[..i];
      } else {
        var k := i - |a|;
        assert (a + b)[i] == b[k] && (a + b)[..i] == a + b[..k];
        SendsAfterOthers(a, b[..k], b[k]);
      }
    }
  }

  lemma SendsAfterOthers(a: seq<Call>, b: seq<Call>, c: Call)
    requires Sends(b, c) && forall d :: d in a ==> d.run != c.run
    ensures Sends(a + b, c)
  {
    hide Anchored, ProtocolValid, Unambiguous, LastOf;
    OwnCleanConcat(a, b, c.run);
    EarlierAreNotOwn(a, b, c.run);
  }

  lemma OwnCleanConcat(a: seq<Call>, b: seq<Call>, run: nat)
    ensures OwnClean(a + b, run) <==> OwnClean(a, run) && OwnClean(b, run)
  {
    hide Unambiguous;
    assert forall c :: c in a || c in b <==> c in a + b;
  }

  lemma ContinuesConcat(a: seq<Call>, b: seq<Call>, newest: nat)
    requires Continues(a) && Continues(b)
    requires (forall c :: c in a ==> c.run <= newest) && forall c :: c in b ==> newest < c.run
    ensures Continues(a + b)
  {
    hide LastOf, Extends;
    forall i | 0 <= i < |a + b|
      ensures Extends(LastOf((a + b)[..i], (a + b)[i].run), (a + b)[i].transcript)
    {
      if i < |a| {
        assert (a + b)[..i] == a[..i];
      } else {
        var k := i - |a|;
        assert (a + b)[i] == b[k] && (a + b)[..i] == a + b[..k];
        EarlierAreNotOwn(a, b[..k], b[k].run);
      }
    }
  }

  // ----- exactly when the transcripts of a run are valid -----

  lemma {:induction false} LastOfGap(calls: seq<Call>, run: nat, i: nat, j: nat)
    requires i < j <= |calls| && calls[i].run == run
    requires forall m :: i < m < j ==> calls[m].run != run
    ensures LastOf(calls[..j], run) == Some(calls[i])
    decreases j
  {
    assert calls[..j][..j - 1] == calls[..j - 1];
    if i < j - 1 {
      LastOfGap(calls, run, i, j - 1);
    }
  }

  /** The next call of a run after its call at `i`. */
  lemma {:induction false} NextOwn(calls: seq<Call>, run: nat, i: nat, j: nat) returns (k: nat)
    requires i < j < |calls| && calls[i].run == run == calls[j].run
    ensures i < k < |calls| && calls[k].run == run && LastOf(calls[..k], run) == Some(calls[i])
    decreases j
  {
    if m :| i < m < j && calls[m].run == run {
      k := NextOwn(calls, run, i, m);
    } else {
      k := j;
      LastOfGap(calls, run, i, j);
    }
  }

  /** All the transcripts that a run sends answer every tool call in place if and only if no
      reply to it but its last was ambiguous. */
  lemma ValidExactly(calls: seq<Call>, run: nat)
    requires Sound(calls)
    ensures (forall c :: c in calls && c.run == run ==> ProtocolValid(c.transcript)) <==>
            (forall i, j :: 0 <= i < j < |calls| && calls[i].run == run == calls[j].run ==> Unambiguous(calls[i]))
  {
    hide Unambiguous, Anchored, ProtocolValid;
    if forall i, j :: 0 <= i < j < |calls| && calls[i].run == run == calls[j].run ==> Unambiguous(calls[i]) {
      forall c | c in calls && c.run == run ensures ProtocolValid(c.transcript) {
        var k :| 0 <= k < |calls| && calls[k] == c;
        assert Sends(calls[..k], calls[k]);
      }
    } else {
      var i, j :| 0 <= i < j < |calls| && calls[i].run == run == calls[j].run && !Unambiguous(calls[i]);
      var k := NextOwn(calls, run, i, j);
      assert Sends(calls[..k], calls[k]);
    }
  }

  // ----- how many calls a run can make -----

  /** Steps of its own, and for each tool call at most the calls of its widest delegate. */
  ghost function Completions(h: Harness): nat
    decreases h, 1
  {
    Pos(h.limits.maxSteps) + Pos(h.limits.maxToolCalls) * Widest(h.delegates)
  }

  ghost function Widest(hs: seq<Harness>): nat
    decreases hs, 0
  {
    if hs == [] then 0
    else
      var first, rest := Completions(hs[0]), Widest(hs[1..]);
      if first >= rest then first else rest
  }

  lemma {:induction false} WidestIsWidest(hs: seq<Harness>, h: Harness)
    requires h in hs
    ensures Completions(h) <= Widest(hs)
    decreases |hs|
  {
    if h != hs[0] {
      WidestIsWidest(hs[1..], h);
    }
  }

  /** A team as `open_team` wires it: the delegates delegate no further. */
  predicate OneLevel(h: Harness) {
    forall d :: d in h.delegates ==> d.delegates == []
  }

  lemma {:induction false} WidestSteps(hs: seq<Harness>, most: nat)
    requires forall d :: d in hs ==> d.delegates == [] && Pos(d.limits.maxSteps) <= most
    ensures Widest(hs) <= most
    decreases |hs|
  {
    if hs != [] {
      assert hs[0] in hs;
      WidestSteps(hs[1..], most);
      assert Widest(hs[0].delegates) == 0;
      assert Completions(hs[0]) == Pos(hs[0].limits.maxSteps) + Pos(hs[0].limits.maxToolCalls) * 0;
    }
  }

  /** A one-level team makes at most its root's steps plus, for each of the root's tool
      calls, the steps of its longest-running specialist. */
  lemma TeamBound(root: Harness, most: nat)
    requires OneLevel(root)
    requires forall d :: d in root.delegates ==> Pos(d.limits.maxSteps) <= most
    ensures Completions(root) <= Pos(root.limits.maxSteps) + Pos(root.limits.maxToolCalls) * most
  {
    WidestSteps(root.delegates, most);
    MulMonotone(Pos(root.limits.maxToolCalls), Widest(root.delegates), most);
  }

  lemma MulMonotone(k: nat, a: nat, b: nat)
    requires a <= b
    ensures k * a <= k * b && a * k <= b * k
  {
    assert (b - a) * k >= 0;
  }

  /** Under a ceiling, what a run spends stays below the ceiling plus its last call. */
  lemma OvershootIsOneCall(spent: real, ceiling: real, calls: seq<Call>)
    requires Affordable(spent, ceiling, calls) && calls != []
    ensures spent + Charged(calls) < ceiling + calls[|calls| - 1].charged
  {
  }
}
