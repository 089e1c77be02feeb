/** The agent loop (`agents/harness.py`), with the model gateway's budget check and charge
    (`models/gateway.py`) and the delegation of a tool call to another agent's run
    (`agents/runtime.py`). The model, the tools, the clock and the verifier are whatever
    they are: `Outside` carries their answers, and nothing is assumed about them. */
module AgentLoop {
  import opened Wrappers
  import opened Transcript
  import opened AgentRun
  import opened RunTrace
  import Thrash

  const PARSE_RETRIES: nat := 1
  const VERIFY_RETRIES: nat := 1

  /** Everything outside the loop. Each question that a run asks has its own turn. */
  class Outside {
    const completion: nat -> Completion
    const clock: nat -> real
    const payload: nat -> string
    const triggered: nat -> seq<string>
    const verdict: nat -> bool
    const parses: string -> bool
    const validates: string -> bool
    /** Every question asked, provider call made, tool executed and run recorded, in order. */
    var asked: seq<Exchange>
    var log: seq<Call>
    var ran: seq<Use>
    var records: seq<Record>

    constructor (completion: nat -> Completion, clock: nat -> real, payload: nat -> string,
                 triggered: nat -> seq<string>, verdict: nat -> bool, parses: string -> bool,
                 validates: string -> bool)
      ensures asked == [] && log == [] && ran == [] && records == []
    {
      this.completion, this.clock, this.payload, this.triggered := completion, clock, payload, triggered;
      this.verdict, this.parses, this.validates := verdict, parses, validates;
      asked, log, ran, records := [], [], [], [];
    }

    method Register() returns (run: nat)
      modifies this`asked
      ensures run == |old(asked)| && asked == old(asked) + [NewRun]
    {
      run := |asked|;
      asked := asked + [NewRun];
    }

    method Clock() returns (now: real)
      modifies this`asked
      ensures now == clock(|old(asked)|) && asked == old(asked) + [ReadClock(now)]
    {
      now := clock(|asked|);
      asked := asked + [ReadClock(now)];
    }

    method Model() returns (answer: Completion)
      modifies this`asked
      ensures answer == completion(|old(asked)|) && asked == old(asked) + [AskModel(answer)]
    {
      answer := completion(|asked|);
      asked := asked + [AskModel(answer)];
    }

    method Tool() returns (text: string)
      modifies this`asked
      ensures text == payload(|old(asked)|) && asked == old(asked) + [UseTool(text)]
    {
      text := payload(|asked|);
      asked := asked + [UseTool(text)];
    }

    method Verifier() returns (ok: bool)
      modifies this`asked
      ensures ok == verdict(|old(asked)|) && asked == old(asked) + [VerifyAnswer(ok)]
    {
      ok := verdict(|asked|);
      asked := asked + [VerifyAnswer(ok)];
    }

    method Skills() returns (names: seq<string>)
      modifies this`asked
      ensures names == triggered(|old(asked)|) && asked == old(asked) + [ReadSkills(names)]
    {
      names := triggered(|asked|);
      asked := asked + [ReadSkills(names)];
    }
  }

  /** The per-run cost ceiling: checked before a call, charged after it. */
  class RunBudget {
    const ceiling: real
    var spent: real

    constructor (ceiling: real)
      ensures this.ceiling == ceiling && spent == 0.0
    {
      this.ceiling, this.spent := ceiling, 0.0;
    }

    predicate Exhausted()
      reads this
    {
      spent >= ceiling
    }

    method Charge(cost: real)
      modifies this
      ensures spent == old(spent) + ChargeFor(cost)
    {
      spent := spent + ChargeFor(cost);
    }
  }

  datatype Answer = Got(reply: Reply) | Refused | Failed

  /** `ModelGateway.complete`: refused without a call when the budget or the period cap is
      spent; otherwise one call, charged if it answered. */
  method Complete(w: Outside, budget: RunBudget, agent: Harness, run: nat, task: string, ms: seq<Message>)
    returns (answer: Answer)
    modifies w`asked, w`log, budget
    ensures old(budget.spent) >= budget.ceiling ==> answer.Refused? && w.asked == old(w.asked)
    ensures old(budget.spent) < budget.ceiling ==>
              var c := w.completion(|old(w.asked)|);
              && w.asked == old(w.asked) + [AskModel(c)]
              && answer == match c { case PeriodCapSpent => Refused case Raises => Failed case Replies(r) => Got(r) }
    ensures answer.Refused? ==> w.log == old(w.log) && budget.spent == old(budget.spent)
    ensures !answer.Refused? ==>
              var reply := if answer.Got? then Some(answer.reply) else None;
              && w.log == old(w.log) + [Call(agent, run, task, ms, reply, ChargeOf(reply), |old(w.asked)|)]
              && budget.spent == old(budget.spent) + ChargeOf(reply)
              && ChargeOf(reply) == if reply.Some? && reply.value.cost > 0.0 then reply.value.cost else 0.0
  {
    if budget.Exhausted() {
      return Refused;
    }
    var at := |w.asked|;
    var c := w.Model();
    match c {
      case PeriodCapSpent =>
        answer := Refused;
      case Raises =>
        w.log := w.log + [Call(agent, run, task, ms, None, 0.0, at)];
        answer := Failed;
      case Replies(reply) =>
        budget.Charge(reply.cost);
        w.log := w.log + [Call(agent, run, task, ms, Some(reply), ChargeFor(reply.cost), at)];
        answer := Got(reply);
    }
  }

  // ----- the loop's state -----

  datatype State = State(
    messages: seq<Message>, steps: nat, toolCalls: nat, verifyAttempts: nat, parseAttempts: nat,
    signatures: seq<string>, lastText: string)

  datatype RunResult = RunResult(
    output: string, stop: StopReason, steps: nat, toolCalls: nat, cost: real,
    verified: Option<bool>, parsed: bool, messages: seq<Message>)

  datatype Outcome = Finished(result: RunResult) | Crashed(cost: real)

  function ResultOf(s: State, stop: StopReason, output: string, verified: Option<bool>, parsed: bool, cost: real)
    : RunResult
  {
    RunResult(output, stop, s.steps, s.toolCalls, cost, verified, parsed, s.messages)
  }

  /** The logs and the budget are what the lawful trace `t` says, and `gap` has been asked
      since its last event. */
  ghost predicate Tracks(w: Outside, budget: RunBudget, t: Trace, gap: seq<Exchange>)
    reads w, budget
  {
    && Lawful(t) && Truthful(w, t)
    && w.asked == Chronicle(t) + gap
    && w.log == Log(t)
    && w.ran == Ran(t)
    && w.records == Records(t)
    && budget.spent == Spent(t)
    && budget.ceiling == Start(t).ceiling
  }

  ghost predicate Counters(h: Harness, s: State, calls: nat) {
    && s.steps <= Pos(h.limits.maxSteps)
    && s.toolCalls <= Pos(h.limits.maxToolCalls)
    && s.toolCalls == |s.signatures|
    && Thrash.Progressing(s.signatures)
    && calls <= s.steps + s.toolCalls * Widest(h.delegates)
    && s.verifyAttempts <= VERIFY_RETRIES
    && s.parseAttempts <= PARSE_RETRIES
  }

  /** The state at the head of the loop. Everything asked for so far has been executed, and
      the messages are the transcript to be sent next. */
  ghost predicate Steady(h: Harness, task: string, s: State, t: Trace, gap: seq<Exchange>) {
    && Start(t).agent == h && Start(t).task == task
    && Counters(h, s, Count(t))
    && Anchored(s.messages, h.systemPrompt, task)
    && Awaits(t, gap, s.messages)
    && (Clean(t) ==> ProtocolValid(s.messages))
    && s.verifyAttempts + s.parseAttempts <= s.steps
    && s.lastText == LastText(t) && s.steps == Own(t)
    && s.signatures == Signatures(Executed(t)) && Executed(t) == Requested(t)
  }

  /** The state in the middle of a turn: the reply `r` is in and was given the messages
      `said`, the calls `owed` of its batch have no result yet, and `left` are still to be
      executed. */
  ghost predicate MidTurn(h: Harness, task: string, s: State, t: Trace, r: Reply, owed: multiset<string>,
                          left: seq<ToolCall>, said: seq<Message>)
  {
    && Start(t).agent == h && Start(t).task == task
    && Counters(h, s, Count(t))
    && Anchored(s.messages, h.systemPrompt, task)
    && LastAsked(t).Some? && LastAsked(t).value.reply == Some(r) && LastAsked(t).value.agent == h
    && s.messages == Grown(LastAsked(t).value) + said
    && (Clean(t) ==> Scan(NOTHING_OWED, s.messages) == Owing(owed))
    && s.verifyAttempts + s.parseAttempts < s.steps
    && s.lastText == LastText(t) && s.steps == Own(t)
    && s.signatures == Signatures(Executed(t)) && Executed(t) + left == Requested(t)
  }

  /** The output is the text of the last reply, or the arguments with which it submitted
      the final answer. */
  predicate Answers(h: Harness, r: Reply, output: string) {
    if r.calls == [] then output == r.text
    else FinalCall(h, r.calls).Some? && output == FinalCall(h, r.calls).value.request.arguments
  }

  /** The answer in `r` has the structure that a typed agent must give. */
  predicate Parses(w: Outside, h: Harness, r: Reply) {
    if r.calls == [] then h.typed && w.parses(r.text)
    else FinalCall(h, r.calls).Some? && w.validates(FinalCall(h, r.calls).value.request.arguments)
  }

  /** What a result says of the run `t`: the reason names the limit that was reached, the
      output is the answer or else the last text given, the steps are the run's own calls
      (and one more if that was refused), the tool calls are those it executed (and one more
      if that would have been a repeated cycle), and an answer is accepted unverified or
      unparsed only after it was sent back once. */
  ghost predicate Honest(w: Outside, h: Harness, r: RunResult, t: Trace) {
    && r.steps <= Pos(h.limits.maxSteps)
    && r.toolCalls <= Pos(h.limits.maxToolCalls)
    && (r.steps == Own(t) || (r.stop == BudgetExhausted && r.steps == Own(t) + 1))
    && Tallied(r.toolCalls, t, r.stop)
    && Kept(h, t, r.messages)
    && (r.stop == MaxSteps ==> r.steps >= h.limits.maxSteps)
    && (r.stop == MaxToolCalls ==> r.toolCalls >= h.limits.maxToolCalls)
    && (r.stop == ContextExhausted ==> Overflowed(h, t))
    && (r.stop != Done ==> r.verified == None && !r.parsed && r.output == LastText(t))
    && (r.stop == Done ==> Delivered(w, h, r, t))
  }

  /** How many tool calls a run has counted when it stops. Unless it stopped in the middle of
      a batch, everything asked for was executed; only a refused call may complete a cycle,
      and it is the next one asked for. */
  ghost predicate Tallied(toolCalls: nat, t: Trace, stop: StopReason) {
    && toolCalls == |Executed(t)| + (if stop == NoProgress then 1 else 0)
    && (stop == NoProgress ==>
          && toolCalls <= |Requested(t)|
          && Thrash.Thrashing(Signatures(Requested(t)[..toolCalls]))
          && (AllPlain(Requested(t)[..toolCalls]) ==> Thrash.Thrashing(Requests(Requested(t)[..toolCalls]))))
    && (stop == MaxToolCalls ==> Executed(t) < Requested(t))
    && (stop !in {NoProgress, MaxToolCalls, Timeout} ==> Executed(t) == Requested(t))
  }

  /** The messages of a run when it stops: the first ones if the model never replied, and
      otherwise the last transcript with the last reply, compacted if it had to be, and
      whatever that reply was given. */
  ghost predicate Kept(h: Harness, t: Trace, ms: seq<Message>) {
    match LastAsked(t)
    case None => ms == FirstMessages(Start(t).agent, Start(t).task, Start(t).skills)
    case Some(c) =>
      c.reply.Some? &&
        (Grown(c) <= ms || (Overflowed(h, t) && ms == c.transcript + [AssistantMessage(c.reply.value)]))
  }

  lemma AwaitedIsKept(h: Harness, t: Trace, gap: seq<Exchange>, ms: seq<Message>)
    requires Awaits(t, gap, ms)
    ensures Kept(h, t, ms)
  {
    if LastAsked(t).Some? {
      GrowsFrom(LastAsked(t).value, Results(t), gap, ms);
    }
  }

  /** The last reply filled the window of an agent that does not compact. */
  ghost predicate Overflowed(h: Harness, t: Trace) {
    !h.compacts && t.Asked? && t.call.reply.Some? && FillsWindow(h, t.call.reply.value)
  }

  ghost predicate Delivered(w: Outside, h: Harness, r: RunResult, t: Trace) {
    && t.Asked? && t.call.reply.Some?
    && Answers(h, t.call.reply.value, r.output)
    && (r.verified.Some? <==> h.verifies)
    && (r.parsed <==> Parses(w, h, t.call.reply.value))
    && r.steps >= 1 + (if r.verified == Some(false) then VERIFY_RETRIES else 0)
                    + (if h.typed && !r.parsed then PARSE_RETRIES else 0)
  }

  /** What a run asked last bears out its result: a time-out is a clock that ran out, an
      exhausted budget the run's or the operator's, and a verdict the verifier's. */
  ghost predicate Grounded(t: Trace, tail: seq<Exchange>, stop: StopReason, verified: Option<bool>) {
    && (stop == Timeout ==> exists now :: LastIs(tail, ReadClock(now)) && now >= Deadline(Start(t)))
    && (stop == BudgetExhausted ==> Spent(t) >= Start(t).ceiling || LastIs(tail, AskModel(PeriodCapSpent)))
    && (verified.Some? ==> LastIs(tail, VerifyAnswer(verified.value)))
  }

  predicate LastIs(tail: seq<Exchange>, e: Exchange) {
    tail != [] && tail[|tail| - 1] == e
  }

  /** How the run `t` ended, `tail` being what it asked after its last event. */
  ghost predicate EndedAs(w: Outside, t: Trace, tail: seq<Exchange>, o: Outcome) {
    match o
    case Finished(r) =>
      && r.cost == Spent(t) - Start(t).spent
      && Honest(w, Start(t).agent, r, t)
      && Grounded(t, tail, r.stop, r.verified)
    case Crashed(cost) => cost == Spent(t) - Start(t).spent && t.Asked? && t.call.reply.None? && tail == []
  }

  /** What a delegated run hands back: a condensed summary, or its failure. */
  function PayloadOf(d: Harness, outcome: Outcome): Body {
    match outcome
    case Crashed(_) => Failure
    case Finished(r) => Summary(d.id, r.output, r.stop, r.verified, r.parsed)
  }

  /** The caller receives the answer, the stop reason, the verdict and whether there is data,
      under the specialist's name; of a crash only that it failed. */
  lemma PayloadTells(d: Harness, outcome: Outcome)
    ensures outcome.Crashed? <==> PayloadOf(d, outcome) == Failure
    ensures outcome.Finished? ==>
              var p := PayloadOf(d, outcome);
              && p.Summary? && p.agent == d.id && p.answer == outcome.result.output
              && p.stop == outcome.result.stop && p.verified == outcome.result.verified
              && (p.structured <==> outcome.result.parsed)
  {
  }

  /** What an answer is, and when it has the structure that its agent must give. */
  lemma AnswerExactly(w: Outside, h: Harness, r: Reply, output: string)
    ensures r.calls == [] ==>
              && (Answers(h, r, output) <==> output == r.text)
              && (Parses(w, h, r) <==> h.typed && w.parses(r.text))
    ensures r.calls != [] ==>
              forall f :: FinalCall(h, r.calls) == Some(f) ==>
                && (Answers(h, r, output) <==> output == f.request.arguments)
                && (Parses(w, h, r) <==> w.validates(f.request.arguments))
  {
  }

  /** What a delegated run reported is how it ended. */
  ghost predicate Truthful(w: Outside, t: Trace) {
    match t
    case Begin(_) => true
    case Asked(prev, _, _, _) => Truthful(w, prev)
    case Used(prev, _, _, _) => Truthful(w, prev)
    case Delegated(prev, _, _, sub, tail, payload) =>
      && Truthful(w, prev) && Truthful(w, sub)
      && exists o :: EndedAs(w, sub, tail, o) && payload == PayloadOf(Start(sub).agent, o)
  }

  // ----- the pieces of one turn -----

  /** Loop control: every ceiling is checked before anything is spent. */
  method Ceiling(h: Harness, s: State, deadline: real, budget: RunBudget, w: Outside)
    returns (stop: Option<StopReason>, now: real)
    modifies w`asked
    ensures s.steps >= h.limits.maxSteps ==> stop == Some(MaxSteps) && w.asked == old(w.asked)
    ensures s.steps < h.limits.maxSteps ==>
              && w.asked == old(w.asked) + [ReadClock(now)]
              && stop == (if now >= deadline then Some(Timeout)
                          else if budget.spent >= budget.ceiling then Some(BudgetExhausted)
                          else None)
  {
    now := 0.0;
    if s.steps >= h.limits.maxSteps {
      return Some(MaxSteps), now;
    }
    now := w.Clock();
    if now >= deadline {
      return Some(Timeout), now;
    }
    stop := if budget.Exhausted() then Some(BudgetExhausted) else None;
  }

  /** One completion, entered in the run's books. */
  method Ask(h: Harness, run: nat, task: string, s: State, budget: RunBudget, w: Outside, ghost t: Trace,
             ghost gap: seq<Exchange>, ghost now: real)
    returns (answer: Answer, ghost t': Trace)
    requires Tracks(w, budget, t, gap + [ReadClock(now)]) && Start(t).run == run
    requires Steady(h, task, s, t, gap)
    requires now < Deadline(Start(t)) && budget.spent < budget.ceiling
    modifies w`asked, w`log, budget
    ensures answer.Refused? ==>
              t' == t && Tracks(w, budget, t, gap + [ReadClock(now), AskModel(PeriodCapSpent)])
    ensures !answer.Refused? ==>
              var reply := if answer.Got? then Some(answer.reply) else None;
              && Tracks(w, budget, t', [])
              && t' == Asked(t, gap, now, Call(h, run, task, s.messages, reply, ChargeOf(reply),
                                               |Chronicle(t)| + |gap| + 1))
  {
    hide Counters, Awaits, Anchored, ProtocolValid;
    t' := t;
    answer := Complete(w, budget, h, run, task, s.messages);
    if answer.Refused? {
      assert gap + [ReadClock(now)] + [AskModel(PeriodCapSpent)] == gap + [ReadClock(now), AskModel(PeriodCapSpent)];
    } else {
      t' := Asked(t, gap, now, w.log[|w.log| - 1]);
      assert Chronicle(t) + (gap + [ReadClock(now)]) + [AskModel(AnswerOf(t'.call))] == Chronicle(t') + [];
    }
  }

  /** The reply appended and, if the window is full, the transcript compacted; `false` if the
      window is full and the agent hands off instead. */
  method Take(h: Harness, s: State, r: Reply) returns (fits: bool, s': State)
    ensures fits <==> !FillsWindow(h, r) || h.compacts
    ensures s' == s.(messages := s'.messages, lastText := s'.lastText)
    ensures s'.lastText == if r.text != "" then r.text else s.lastText
    ensures var grown := s.messages + [AssistantMessage(r)];
            s'.messages == if FillsWindow(h, r) && h.compacts then CompactedForm(grown) else grown
  {
    var grown := s.messages + [AssistantMessage(r)];
    s' := s.(messages := grown, lastText := if r.text != "" then r.text else s.lastText);
    fits := true;
    if FillsWindow(h, r) {
      if !h.compacts {
        return false, s';
      }
      var compacted := DefaultCompactor(grown);
      s' := s'.(messages := compacted);
    }
  }

  lemma TurnStarts(h: Harness, task: string, s: State, t: Trace, gap: seq<Exchange>, now: real, c: Call, r: Reply,
                   s': State)
    requires Steady(h, task, s, t, gap) && s.steps < h.limits.maxSteps
    requires c.agent == h && c.transcript == s.messages && c.reply == Some(r)
    requires s' == s.(steps := s.steps + 1, messages := Grown(c),
                      lastText := if r.text != "" then r.text else s.lastText)
    requires !FillsWindow(h, r) || h.compacts
    ensures MidTurn(h, task, s', Asked(t, gap, now, c), r, multiset(Ids(r.calls)), Batch(c), [])
  {
    hide Awaits, Thrash.Progressing;
    ReplyAppended(h, task, s.messages, r);
  }

  lemma ReplyAppended(h: Harness, task: string, ms: seq<Message>, r: Reply)
    requires Anchored(ms, h.systemPrompt, task)
    ensures var grown := ms + [AssistantMessage(r)];
            && Anchored(grown, h.systemPrompt, task)
            && Anchored(CompactedForm(grown), h.systemPrompt, task)
            && (ProtocolValid(ms) ==>
                  && Scan(NOTHING_OWED, grown) == Owing(multiset(Ids(r.calls)))
                  && Scan(NOTHING_OWED, CompactedForm(grown)) == Owing(multiset(Ids(r.calls))))
  {
    var grown := ms + [AssistantMessage(r)];
    ScanAppend(NOTHING_OWED, ms, AssistantMessage(r));
    CompactionIsSafe(grown, h.systemPrompt, task);
  }

  // ----- answering -----

  datatype Verdict = Again | Final(output: string, verified: Option<bool>, parsed: bool)

  /** What the last verdict of a run may be: a failed check stands only once it has been
      fed back. */
  predicate Settled(h: Harness, s: State, v: Verdict)
    requires v.Final?
  {
    && (v.verified.Some? <==> h.verifies)
    && (v.parsed ==> h.typed)
    && (v.verified == Some(false) ==> s.verifyAttempts >= VERIFY_RETRIES)
    && (h.typed && !v.parsed ==> s.parseAttempts >= PARSE_RETRIES)
  }

  /** What verification makes of an answer. Without a verifier it is delivered unjudged; with
      one it is sent back, with the verifier's feedback, exactly if the verdict is against it
      and an attempt is left, and is otherwise delivered with the verdict. */
  predicate Judged(h: Harness, s: State, output: string, parsed: bool, gap: seq<Exchange>, v: Verdict, s': State) {
    if !h.verifies then gap == [] && v == Final(output, None, parsed) && s' == s
    else
      && |gap| == 1 && gap[0].VerifyAnswer?
      && if !gap[0].ok && s.verifyAttempts == 0
         then v == Again && s' == s.(verifyAttempts := s.verifyAttempts + 1,
                                     messages := s.messages + [User(VerifierFeedback)])
         else v == Final(output, Some(gap[0].ok), parsed) && s' == s
  }

  /** The verification step shared by both answers. */
  method Verify(h: Harness, s: State, output: string, parsed: bool, w: Outside)
    returns (v: Verdict, s': State, ghost gap: seq<Exchange>)
    modifies w`asked
    ensures w.asked == old(w.asked) + gap && Judged(h, s, output, parsed, gap, v, s')
  {
    s', gap := s, [];
    if h.verifies {
      var ok := w.Verifier();
      gap := [VerifyAnswer(ok)];
      if !ok && s.verifyAttempts < VERIFY_RETRIES {
        s' := s.(verifyAttempts := s.verifyAttempts + 1, messages := s.messages + [User(VerifierFeedback)]);
        return Again, s', gap;
      }
      return Final(output, Some(ok), parsed), s', gap;
    }
    v := Final(output, None, parsed);
  }

  lemma UserAppended(ms: seq<Message>, body: Body)
    ensures Scan(NOTHING_OWED, ms) == NOTHING_OWED ==> Scan(NOTHING_OWED, ms + [User(body)]) == NOTHING_OWED
  {
    ScanAppend(NOTHING_OWED, ms, User(body));
  }

  /** After an answer is sent back with a message, the head of the loop is reached again. */
  lemma SentBack(h: Harness, task: string, s: State, t: Trace, r: Reply, said: seq<Message>, gap: seq<Exchange>,
                 body: Body, s': State)
    requires MidTurn(h, task, s, t, r, multiset{}, [], said)
    requires s' == s.(verifyAttempts := s'.verifyAttempts, parseAttempts := s'.parseAttempts,
                      messages := s.messages + [User(body)])
    requires s'.verifyAttempts + s'.parseAttempts <= s.steps
    requires s'.verifyAttempts <= VERIFY_RETRIES && s'.parseAttempts <= PARSE_RETRIES
    requires Follows(LastAsked(t).value, Results(t), gap, Grown(LastAsked(t).value) + said + [User(body)])
    ensures Steady(h, task, s', t, gap)
  {
    hide Thrash.Progressing, Follows, Grown;
    UserAppended(s.messages, body);
    assert Executed(t) + [] == Executed(t);
  }

  /** A verdict that ends the run may, and one that does not leads back to the head. */
  lemma JudgedWell(h: Harness, task: string, s: State, t: Trace, r: Reply, said: seq<Message>, output: string,
                   parsed: bool, gap: seq<Exchange>, v: Verdict, s': State)
    requires MidTurn(h, task, s, t, r, multiset{}, [], said) && Judged(h, s, output, parsed, gap, v, s')
    requires parsed ==> h.typed
    requires h.typed && !parsed ==> s.parseAttempts >= PARSE_RETRIES
    requires said == if r.calls == [] then [] else FinalResults(Ids(r.calls), FinalOf(h, r).id, Accepted)
    requires r.calls == [] || FinalCall(h, r.calls).Some?
    ensures v.Again? ==> Steady(h, task, s', t, gap)
    ensures v.Final? ==> s' == s && v.output == output && v.parsed == parsed && Settled(h, s, v)
    ensures v.Final? && v.verified.Some? ==> LastIs(gap, VerifyAnswer(v.verified.value))
  {
    hide MidTurn, Steady, Grown, FinalResults;
    if v.Again? {
      assert gap == [VerifyAnswer(false)];
      Retried(h, task, s, t, r, multiset{}, [], said);
      SentBack(h, task, s, t, r, said, gap, VerifierFeedback, s');
    }
  }

  /** The call with which a reply submits its answer. */
  function FinalOf(h: Harness, r: Reply): ToolCall {
    if FinalCall(h, r.calls).Some? then FinalCall(h, r.calls).value else ToolCall("", Request("", ""), "")
  }

  /** What a state in the middle of a turn has room for. */
  lemma Retried(h: Harness, task: string, s: State, t: Trace, r: Reply, owed: multiset<string>, left: seq<ToolCall>,
                said: seq<Message>)
    requires MidTurn(h, task, s, t, r, owed, left, said)
    ensures LastAsked(t).Some? && LastAsked(t).value.reply == Some(r) && LastAsked(t).value.agent == h
    ensures s.verifyAttempts + s.parseAttempts < s.steps
    ensures s.verifyAttempts <= VERIFY_RETRIES && s.parseAttempts <= PARSE_RETRIES
    ensures s.messages == Grown(LastAsked(t).value) + said
  {
  }

  /** A reply without tool calls is an answer. One that does not parse is sent back, with what
      is wrong with it, as long as an attempt is left; any other is verified as it stands. */
  method AnswerInText(h: Harness, task: string, s: State, r: Reply, w: Outside, ghost t: Trace)
    returns (v: Verdict, s': State, ghost gap: seq<Exchange>)
    requires r.calls == [] && MidTurn(h, task, s, t, r, multiset{}, [], [])
    modifies w`asked
    ensures w.asked == old(w.asked) + gap
    ensures if h.typed && !Parses(w, h, r) && s.parseAttempts == 0
            then v == Again && gap == []
                 && s' == s.(parseAttempts := s.parseAttempts + 1, messages := s.messages + [User(FormatFeedback)])
            else Judged(h, s, r.text, Parses(w, h, r), gap, v, s')
    ensures s'.steps == s.steps
    ensures v.Again? ==> Steady(h, task, s', t, gap)
    ensures v.Final? ==> s' == s && Answers(h, r, v.output) && Settled(h, s, v) && (v.parsed <==> Parses(w, h, r))
    ensures v.Final? && v.verified.Some? ==> LastIs(gap, VerifyAnswer(v.verified.value))
  {
    hide MidTurn, Steady, Grown;
    var parsed := h.typed && w.parses(r.text);
    Retried(h, task, s, t, r, multiset{}, [], []);
    if h.typed && !parsed && s.parseAttempts < PARSE_RETRIES {
      s' := s.(parseAttempts := s.parseAttempts + 1, messages := s.messages + [User(FormatFeedback)]);
      assert Grown(LastAsked(t).value) + [] == Grown(LastAsked(t).value);
      SentBack(h, task, s, t, r, [], [], FormatFeedback, s');
      return Again, s', [];
    }
    v, s', gap := Verify(h, s, r.text, parsed, w);
    JudgedWell(h, task, s, t, r, [], r.text, parsed, gap, v, s');
  }

  /** Every other call of the batch is skipped, in order. */
  method SkipOthers(ms: seq<Message>, calls: seq<ToolCall>, final: string) returns (out: seq<Message>)
    ensures out == ms + SkippedResults(Ids(calls), final)
  {
    out := ms;
    for i := 0 to |calls|
      invariant out + SkippedResults(Ids(calls)[i..], final) == ms + SkippedResults(Ids(calls), final)
    {
      assert Ids(calls)[i..][1..] == Ids(calls)[i + 1..];
      if calls[i].id != final {
        out := out + [Tool(calls[i].id, Skipped)];
      }
    }
  }

  lemma ChannelAnswered(h: Harness, task: string, s: State, r: Reply, final: ToolCall, verdict: Body,
                        t: Trace, s': State)
    requires MidTurn(h, task, s, t, r, multiset(Ids(r.calls)), [], [])
    requires FinalCall(h, r.calls) == Some(final)
    requires Clean(t) ==> multiset(Ids(r.calls))[final.id] == 1
    requires s' == s.(messages := s.messages + FinalResults(Ids(r.calls), final.id, verdict))
    ensures MidTurn(h, task, s', t, r, multiset{}, [], FinalResults(Ids(r.calls), final.id, verdict))
  {
    hide Thrash.Progressing, Grown;
    if Clean(t) {
      var i :| 0 <= i < |r.calls| && r.calls[i] == final;
      assert Ids(r.calls)[i] == final.id;
      FinalBatchValid(s.messages, Ids(r.calls), final.id, verdict);
    }
  }

  /** A refused answer in the channel leads back to the head of the loop. */
  lemma ChannelRefused(h: Harness, task: string, s: State, r: Reply, final: ToolCall, t: Trace, s': State)
    requires MidTurn(h, task, s, t, r, multiset{}, [], FinalResults(Ids(r.calls), final.id, SchemaError))
    requires FinalCall(h, r.calls) == Some(final) && s.parseAttempts < PARSE_RETRIES
    requires s' == s.(parseAttempts := s.parseAttempts + 1)
    ensures Steady(h, task, s', t, [])
  {
    hide Thrash.Progressing, Grown, FinalResults;
    assert Executed(t) + [] == Executed(t);
  }

  /** A typed agent's answer through the function channel. The whole batch is answered before
      anything else is said. Arguments that do not fit the schema are sent back as long as an
      attempt is left; any others are accepted and verified. */
  method AnswerInChannel(h: Harness, task: string, s: State, r: Reply, final: ToolCall, w: Outside,
                         ghost t: Trace)
    returns (v: Verdict, s': State, ghost gap: seq<Exchange>)
    requires FinalCall(h, r.calls) == Some(final) && r.calls != []
    requires t.Asked? && t.call.reply == Some(r) && t.call.agent == h
    requires MidTurn(h, task, s, t, r, multiset(Ids(r.calls)), [], [])
    modifies w`asked
    ensures w.asked == old(w.asked) + gap
    ensures if !Parses(w, h, r) && s.parseAttempts == 0
            then v == Again && gap == []
                 && s' == s.(parseAttempts := s.parseAttempts + 1,
                             messages := s.messages + FinalResults(Ids(r.calls), final.id, SchemaError))
            else Judged(h, s.(messages := s.messages + FinalResults(Ids(r.calls), final.id, Accepted)),
                        final.request.arguments, Parses(w, h, r), gap, v, s')
    ensures s'.steps == s.steps
    ensures v.Again? ==> Steady(h, task, s', t, gap)
    ensures v.Final? ==>
              && s' == s.(messages := s'.messages) && Answers(h, r, v.output) && Settled(h, s, v)
              && (v.parsed <==> Parses(w, h, r))
              && MidTurn(h, task, s', t, r, multiset{}, [], FinalResults(Ids(r.calls), final.id, Accepted))
    ensures v.Final? && v.verified.Some? ==> LastIs(gap, VerifyAnswer(v.verified.value))
  {
    hide MidTurn, Steady;
    CleanIsUnambiguous(t, h, r, final);
    var ms := SkipOthers(s.messages, r.calls, final.id);
    var parsed := w.validates(final.request.arguments);
    if !parsed && s.parseAttempts < PARSE_RETRIES {
      s' := s.(messages := ms + [Tool(final.id, SchemaError)]);
      assert s'.messages == s.messages + FinalResults(Ids(r.calls), final.id, SchemaError);
      ChannelAnswered(h, task, s, r, final, SchemaError, t, s');
      var refused := s';
      s' := s'.(parseAttempts := s.parseAttempts + 1);
      ChannelRefused(h, task, refused, r, final, t, s');
      return Again, s', [];
    }
    var accepted := s.(messages := ms + [Tool(final.id, Accepted)]);
    assert accepted.messages == s.messages + FinalResults(Ids(r.calls), final.id, Accepted);
    ChannelAnswered(h, task, s, r, final, Accepted, t, accepted);
    v, s', gap := Verify(h, accepted, final.request.arguments, parsed, w);
    JudgedWell(h, task, accepted, t, r, FinalResults(Ids(r.calls), final.id, Accepted), final.request.arguments,
               parsed, gap, v, s');
  }

  lemma CleanIsUnambiguous(t: Trace, h: Harness, r: Reply, final: ToolCall)
    requires t.Asked? && t.call.reply == Some(r) && t.call.agent == h && FinalCall(h, r.calls) == Some(final)
    ensures Clean(t) ==> multiset(Ids(r.calls))[final.id] == 1
  {
  }

  // ----- acting -----

  lemma ResultAppended(p: Pairing, ms: seq<Message>, ids: seq<string>, k: nat, body: Body)
    requires k < |ids| && Scan(p, ms) == Owing(multiset(ids[k..]))
    ensures Scan(p, ms + [Tool(ids[k], body)]) == Owing(multiset(ids[k + 1..]))
  {
    ScanAppend(p, ms, Tool(ids[k], body));
    assert ids[k..] == [ids[k]] + ids[k + 1..];
    assert multiset(ids[k..]) - multiset{ids[k]} == multiset(ids[k + 1..]);
  }

  /** Skill bodies are disclosed once, after the whole batch. */
  method Disclose(ms: seq<Message>, w: Outside) returns (out: seq<Message>, ghost names: seq<string>)
    modifies w`asked
    ensures w.asked == old(w.asked) + [ReadSkills(names)]
    ensures out == ms + Disclosed(names)
  {
    var skills := w.Skills();
    out, names := ms, skills;
    for i := 0 to |skills|
      invariant out == ms + Disclosed(skills)[..i]
    {
      out := out + [User(Skill(skills[i]))];
    }
  }

  /** `delegate_tool`: the specialist's run, begun with the task handed over and otherwise
      where its caller is, and charged to the caller's budget. */
  method DelegateTo(h: Harness, d: Harness, tc: ToolCall, run: nat, budget: RunBudget, w: Outside, ghost t: Trace,
                    ghost now: real)
    returns (payload: Body, ghost sub: Trace, ghost tail: seq<Exchange>)
    requires Target(h, tc) == Some(d) && Start(t).agent == h && Start(t).run == run
    requires Tracks(w, budget, t, [ReadClock(now)])
    modifies w`asked, w`log, w`ran, w`records, budget
    ensures HandsOver(t, now, tc, Start(sub)) && Start(sub).agent == d
    ensures Lawful(sub) && Truthful(w, sub) && Count(sub) <= Completions(d) <= Widest(h.delegates)
    ensures w.asked == Chronicle(sub) + tail && w.log == Log(sub) && w.ran == Ran(sub) && budget.spent == Spent(sub)
    ensures w.records == Records(sub) + [RecordOf(sub)]
    ensures exists o :: EndedAs(w, sub, tail, o) && payload == PayloadOf(d, o)
    decreases h, 0
  {
    hide EndedAs, Lawful, Truthful, Completions, Widest, PayloadOf;
    var outcome;
    outcome, sub, tail := Run(d, Some(run), tc.task, budget, w);
    WidestIsWidest(h.delegates, d);
    payload := PayloadOf(d, outcome);
  }

  /** What a tool call leaves behind in the run's books: itself and, if it delegates, the run
      that it was handed to. Its result is what the tool, or that run, gave back. */
  ghost predicate Performed(h: Harness, tc: ToolCall, now: real, payload: Body, t: Trace, t': Trace) {
    if Target(h, tc).None? then t'.Used? && t' == Used(t, now, tc, t'.text) && payload == Prose(t'.text)
    else t'.Delegated? && t' == Delegated(t, now, tc, t'.sub, t'.tail, payload)
         && Count(t'.sub) <= Widest(h.delegates)
  }

  lemma PerformedMeans(h: Harness, tc: ToolCall, now: real, payload: Body, t: Trace, t': Trace)
    requires Performed(h, tc, now, payload, t, t')
    ensures (t'.Used? || t'.Delegated?) && t'.tool == tc && t'.prev == t
    ensures Start(t') == Start(t) && Requested(t') == Requested(t) && LastAsked(t') == LastAsked(t)
    ensures LastText(t') == LastText(t) && Own(t') == Own(t) && (Clean(t') <==> Clean(t))
    ensures Executed(t') == Executed(t) + [tc] && Results(t') == Results(t) + [Tool(tc.id, payload)]
    ensures Count(t) <= Count(t') <= Count(t) + Widest(h.delegates)
  {
    hide Target, Widest;
  }

  /** One tool call. A failure, a crashed delegation included, is returned as content. */
  method ExecuteTool(h: Harness, tc: ToolCall, run: nat, budget: RunBudget, w: Outside, ghost t: Trace, ghost now: real)
    returns (payload: Body, ghost t': Trace)
    requires Tracks(w, budget, t, [ReadClock(now)]) && Start(t).run == run && Start(t).agent == h
    requires Admits(t, tc) && now < Deadline(Start(t))
    modifies w`asked, w`log, w`ran, w`records, budget
    ensures Tracks(w, budget, t', [])
    ensures Performed(h, tc, now, payload, t, t')
    decreases h, 1
  {
    hide Admits, Widest, Completions, Delegate, EndedAs;
    ghost var use := UseOf(t, tc);
    var at := |w.asked|;
    var d := Delegate(h.delegates, tc.request.name);
    if d.None? {
      var text := w.Tool();
      payload, t' := Prose(text), Used(t, now, tc, text);
      assert Chronicle(t) + [ReadClock(now)] + [UseTool(text)] == Chronicle(t') + [];
    } else if tc.task == "" {
      payload, t' := Prose(NO_TASK), Used(t, now, tc, NO_TASK);
      assert Chronicle(t) + [ReadClock(now)] == Chronicle(t') + [];
    } else {
      ghost var sub, tail;
      payload, sub, tail := DelegateTo(h, d.value, tc, run, budget, w, t, now);
      t' := Delegated(t, now, tc, sub, tail, payload);
      assert Chronicle(t') + [] == Chronicle(t');
    }
    w.ran := w.ran + [Use(h, run, tc.request, at)];
  }

  /** The limits that a run keeps when it stops. */
  ghost predicate Halted(h: Harness, s: State, calls: nat, stop: StopReason) {
    && s.steps <= Pos(h.limits.maxSteps)
    && s.toolCalls <= Pos(h.limits.maxToolCalls)
    && calls <= s.steps + s.toolCalls * Widest(h.delegates)
    && (stop == MaxToolCalls ==> s.toolCalls >= h.limits.maxToolCalls)
  }

  /** A tool call is refused uncounted at the call ceiling or past the deadline; otherwise its
      signature is kept, and it is refused exactly if that ends a cycle. */
  method Admit(h: Harness, s: State, tc: ToolCall, deadline: real, w: Outside, ghost calls: nat,
               ghost executed: seq<ToolCall>)
    returns (stop: Option<StopReason>, s': State, now: real)
    requires Counters(h, s, calls) && s.signatures == Signatures(executed)
    modifies w`asked
    ensures s.toolCalls >= h.limits.maxToolCalls ==>
              stop == Some(MaxToolCalls) && s' == s && w.asked == old(w.asked)
    ensures s.toolCalls < h.limits.maxToolCalls ==>
              && w.asked == old(w.asked) + [ReadClock(now)]
              && if now >= deadline then stop == Some(Timeout) && s' == s
                 else && s' == s.(toolCalls := s.toolCalls + 1, signatures := s.signatures + [Signature(tc.request)])
                      && (Thrash.Thrashing(s'.signatures) ==> stop == Some(NoProgress))
                      && (!Thrash.Thrashing(s'.signatures) ==> stop == None)
                      && (Thrash.Thrashing(Requests(executed + [tc])) ==> stop == Some(NoProgress))
                      && (AllPlain(executed + [tc]) && !Thrash.Thrashing(Requests(executed + [tc])) ==> stop == None)
    ensures stop.Some? ==> Halted(h, s', calls, stop.value)
    ensures stop.None? ==> Counters(h, s', calls + Widest(h.delegates))
  {
    hide Widest, Thrash.Thrashing, Signature;
    s', now := s, 0.0;
    if s.toolCalls >= h.limits.maxToolCalls {
      return Some(MaxToolCalls), s', now;
    }
    now := w.Clock();
    if now >= deadline {
      return Some(Timeout), s', now;
    }
    var seen := s.signatures + [Signature(tc.request)];
    OneMoreSignature(executed, tc);
    SignaturesTell(executed + [tc]);
    s' := s.(toolCalls := s.toolCalls + 1, signatures := seen);
    MulStep(s.toolCalls, Widest(h.delegates));
    var thrashing := Thrash.IsThrashing(seen);
    if thrashing {
      return Some(NoProgress), s', now;
    }
    Thrash.StillProgressing(s.signatures, Signature(tc.request));
    stop := None;
  }

  lemma MulStep(k: nat, w: nat)
    ensures (k + 1) * w == k * w + w
  {
  }

  /** One call of a batch done: its result is in, and the next ones are left. */
  lemma ToolDone(h: Harness, task: string, s: State, s': State, t: Trace, t': Trace, r: Reply, i: nat, now: real,
                 body: Body)
    requires i < |r.calls|
    requires MidTurn(h, task, s, t, r, multiset(Ids(r.calls)[i..]), r.calls[i..], Results(t))
    requires Performed(h, r.calls[i], now, body, t, t') && Counters(h, s', Count(t'))
    requires s' == s.(toolCalls := s'.toolCalls, signatures := s.signatures + [Signature(r.calls[i].request)],
                      messages := s.messages + [Tool(r.calls[i].id, body)])
    ensures MidTurn(h, task, s', t', r, multiset(Ids(r.calls)[i + 1..]), r.calls[i + 1..], Results(t'))
  {
    hide Counters, Performed, Unambiguous, Grown;
    PerformedMeans(h, r.calls[i], now, body, t, t');
    assert r.calls[i..] == [r.calls[i]] + r.calls[i + 1..];
    Assoc(Executed(t), [r.calls[i]], r.calls[i + 1..]);
    OneMoreSignature(Executed(t), r.calls[i]);
    Assoc(Grown(LastAsked(t).value), Results(t), [Tool(r.calls[i].id, body)]);
    if Clean(t') {
      ResultAppended(NOTHING_OWED, s.messages, Ids(r.calls), i, body);
    }
  }

  /** The next call of a batch: it was asked for. */
  lemma NextAsked(h: Harness, task: string, s: State, t: Trace, r: Reply, i: nat)
    requires i < |r.calls|
    requires MidTurn(h, task, s, t, r, multiset(Ids(r.calls)[i..]), r.calls[i..], Results(t))
    ensures Executed(t) + [r.calls[i]] <= Requested(t)
    ensures Requested(t)[..|Executed(t)| + 1] == Executed(t) + [r.calls[i]]
    ensures Signatures(Executed(t) + [r.calls[i]]) == s.signatures + [Signature(r.calls[i].request)]
    ensures Start(t).agent == h && Counters(h, s, Count(t)) && s.toolCalls == |Executed(t)|
    ensures s.signatures == Signatures(Executed(t))
  {
    assert r.calls[i..] == [r.calls[i]] + r.calls[i + 1..];
    Assoc(Executed(t), [r.calls[i]], r.calls[i + 1..]);
    OneMoreSignature(Executed(t), r.calls[i]);
  }

  /** What a batch leaves behind: only executed tools. */
  ghost predicate Resumes(t: Trace, t': Trace) {
    && Start(t') == Start(t) && Requested(t') == Requested(t)
    && LastText(t') == LastText(t) && Own(t') == Own(t)
  }

  /** `t'` is `t` and then the execution of `calls`, in order. */
  ghost predicate Carries(t: Trace, t': Trace, calls: seq<ToolCall>) {
    if calls == [] then t' == t
    else
      var n := |calls| - 1;
      (t'.Used? || t'.Delegated?) && t'.tool == calls[n] && Carries(t, t'.prev, calls[..n])
  }

  lemma CarriesOneMore(t: Trace, before: Trace, t': Trace, calls: seq<ToolCall>, n: nat)
    requires n < |calls| && Carries(t, before, calls[..n])
    requires (t'.Used? || t'.Delegated?) && t'.tool == calls[n] && t'.prev == before
    ensures Carries(t, t', calls[..n + 1])
  {
    assert calls[..n + 1][..n] == calls[..n];
  }

  /** The state before the `i`-th call of a batch. */
  ghost predicate MidBatch(h: Harness, task: string, s: State, t: Trace, r: Reply, i: nat) {
    i <= |r.calls| && MidTurn(h, task, s, t, r, multiset(Ids(r.calls)[i..]), r.calls[i..], Results(t))
  }

  lemma BatchStarts(h: Harness, task: string, s: State, t: Trace, r: Reply)
    requires MidTurn(h, task, s, t, r, multiset(Ids(r.calls)), r.calls, Results(t))
    ensures MidBatch(h, task, s, t, r, 0)
  {
    hide MidTurn;
    assert Ids(r.calls)[0..] == Ids(r.calls) && r.calls[0..] == r.calls;
  }

  lemma BatchKept(h: Harness, task: string, s: State, t: Trace, r: Reply, i: nat)
    requires MidBatch(h, task, s, t, r, i)
    ensures Kept(h, t, s.messages)
  {
    hide Grown, Counters;
  }

  /** One call of a batch: refused, or executed and its result appended. */
  method ActOnce(h: Harness, task: string, s: State, r: Reply, i: nat, deadline: real, run: nat, budget: RunBudget,
                 w: Outside, ghost t: Trace)
    returns (stop: Option<StopReason>, s': State, ghost t': Trace, ghost gap: seq<Exchange>)
    requires Tracks(w, budget, t, []) && Start(t).run == run && deadline == Deadline(Start(t))
    requires i < |r.calls| && MidBatch(h, task, s, t, r, i)
    modifies w`asked, w`log, w`ran, w`records, budget
    ensures Tracks(w, budget, t', gap)
    ensures s'.steps == s.steps && s'.lastText == s.lastText
    ensures stop.None? ==>
              && gap == [] && Resumes(t, t')
              && (t'.Used? || t'.Delegated?) && t'.tool == r.calls[i] && t'.prev == t
              && MidBatch(h, task, s', t', r, i + 1)
    ensures stop.Some? ==>
              && t' == t && s'.messages == s.messages && stop.value in {MaxToolCalls, Timeout, NoProgress}
              && Halted(h, s', Count(t), stop.value) && Tallied(s'.toolCalls, t, stop.value)
              && Grounded(t, gap, stop.value, None)
    decreases h, 2
  {
    hide MidTurn, Counters, Thrash.Thrashing, Widest, Performed, Halted, Lawful, Truthful, Steady;
    hide Chronicle, Log, Ran, Records, Spent, Own, Executed, Results, Requests, Signatures, AllPlain;
    t' := t;
    NextAsked(h, task, s, t, r, i);
    var now;
    stop, s', now := Admit(h, s, r.calls[i], deadline, w, Count(t), Executed(t));
    if stop.Some? {
      gap := if stop.value == MaxToolCalls then [] else [ReadClock(now)];
      assert stop.value == Timeout ==> LastIs(gap, ReadClock(now));
      return;
    }
    var payload;
    assert Chronicle(t) + [] + [ReadClock(now)] == Chronicle(t) + [ReadClock(now)];
    payload, t' := ExecuteTool(h, r.calls[i], run, budget, w, t, now);
    gap := [];
    PerformedMeans(h, r.calls[i], now, payload, t, t');
    FewerCalls(h, s', Count(t) + Widest(h.delegates), Count(t'));
    s' := s'.(messages := s'.messages + [Tool(r.calls[i].id, payload)]);
    ToolDone(h, task, s, s', t, t', r, i, now, payload);
  }

  /** Runs the requested tools in order; `None` if the whole batch ran. */
  method Act(h: Harness, task: string, s: State, r: Reply, deadline: real, run: nat, budget: RunBudget, w: Outside,
             ghost t: Trace)
    returns (stop: Option<StopReason>, s': State, ghost t': Trace, ghost gap: seq<Exchange>)
    requires Tracks(w, budget, t, []) && Start(t).run == run && deadline == Deadline(Start(t))
    requires MidTurn(h, task, s, t, r, multiset(Ids(r.calls)), r.calls, Results(t))
    requires r.calls != [] && FinalCall(h, r.calls).None?
    modifies w`asked, w`log, w`ran, w`records, budget
    ensures Tracks(w, budget, t', gap) && Resumes(t, t')
    ensures if stop.None? then Carries(t, t', r.calls)
            else exists n :: 0 <= n < |r.calls| && Carries(t, t', r.calls[..n])
    ensures s'.steps == s.steps && s'.lastText == s.lastText
    ensures stop.None? ==> Steady(h, task, s', t', gap)
    ensures stop.Some? ==>
              && stop.value in {MaxToolCalls, Timeout, NoProgress}
              && Halted(h, s', Count(t'), stop.value) && Tallied(s'.toolCalls, t', stop.value)
              && Grounded(t', gap, stop.value, None) && Kept(h, t', s'.messages)
    decreases h, 3
  {
    s', t', gap := s, t, [];
    BatchStarts(h, task, s, t, r);
    assert Carries(t, t', r.calls[..0]);
    hide MidTurn, MidBatch, Halted, Tallied, Grounded, Kept, Steady, Carries, Tracks, Own, Results, Requested;
    hide LastText, Start;
    for i := 0 to |r.calls|
      invariant Tracks(w, budget, t', []) && Resumes(t, t')
      invariant Carries(t, t', r.calls[..i])
      invariant s'.steps == s.steps && s'.lastText == s.lastText
      invariant MidBatch(h, task, s', t', r, i)
    {
      ghost var before := t';
      BatchKept(h, task, s', t', r, i);
      stop, s', t', gap := ActOnce(h, task, s', r, i, deadline, run, budget, w, t');
      if stop.Some? {
        return;
      }
      CarriesOneMore(t, before, t', r.calls, i);
    }
    assert r.calls[..|r.calls|] == r.calls;
    s', gap := FinishBatch(h, task, s', r, budget, w, t');
    stop := None;
  }

  /** After the last result the triggered skills are disclosed. */
  method FinishBatch(h: Harness, task: string, s: State, r: Reply, budget: RunBudget, w: Outside, ghost t: Trace)
    returns (s': State, ghost gap: seq<Exchange>)
    requires Tracks(w, budget, t, []) && r.calls != [] && FinalCall(h, r.calls).None?
    requires MidBatch(h, task, s, t, r, |r.calls|)
    modifies w`asked
    ensures Tracks(w, budget, t, gap) && Steady(h, task, s', t, gap)
    ensures s' == s.(messages := s'.messages)
  {
    hide MidTurn, Steady, Lawful, Truthful, Chronicle, Log, Ran, Records, Spent;
    var ms;
    ghost var names;
    ms, names := Disclose(s.messages, w);
    BatchDone(h, task, s, t, r, names);
    s' := s.(messages := ms);
    gap := [ReadSkills(names)];
    assert Chronicle(t) + [] + gap == Chronicle(t) + gap;
  }

  lemma FewerCalls(h: Harness, s: State, more: nat, calls: nat)
    requires Counters(h, s, more) && calls <= more
    ensures forall ms :: Counters(h, s.(messages := ms), calls)
  {
  }

  /** After the whole batch and the disclosures the head of the loop is reached again. */
  lemma BatchDone(h: Harness, task: string, s: State, t: Trace, r: Reply, names: seq<string>)
    requires MidTurn(h, task, s, t, r, multiset(Ids(r.calls)[|r.calls|..]), r.calls[|r.calls|..], Results(t))
    requires r.calls != [] && FinalCall(h, r.calls).None?
    ensures Steady(h, task, s.(messages := s.messages + Disclosed(names)), t, [ReadSkills(names)])
  {
    hide Thrash.Progressing, Grown;
    assert multiset(Ids(r.calls)[|r.calls|..]) == multiset{};
    assert r.calls[|r.calls|..] == [];
    assert Executed(t) + [] == Executed(t);
    if Clean(t) {
      DisclosedKeeps(s.messages, names);
    }
  }

  // ----- the loop -----

  /** How a turn of the loop ends: `Continue` goes on, `Raised` crashes the run. */
  datatype Turn = Continue | Raised | Ended(stop: StopReason, output: string, verified: Option<bool>, parsed: bool)

  /** A turn that ends the run says why, and delivers an answer only as `Done`. */
  ghost predicate EndsWell(w: Outside, h: Harness, s: State, t: Trace, gap: seq<Exchange>, turn: Turn)
    requires turn.Ended?
  {
    && Halted(h, s, Count(t), turn.stop) && Tallied(s.toolCalls, t, turn.stop)
    && Kept(h, t, s.messages)
    && Grounded(t, gap, turn.stop, turn.verified)
    && (turn.stop == MaxSteps ==> s.steps >= h.limits.maxSteps)
    && (turn.stop == ContextExhausted ==> Overflowed(h, t))
    && (turn.stop != Done ==> turn.verified == None && !turn.parsed && turn.output == LastText(t))
    && (s.steps == Own(t) || (turn.stop == BudgetExhausted && s.steps == Own(t) + 1))
    && (turn.stop == Done ==>
          && t.Asked? && t.call.reply.Some?
          && Answers(h, t.call.reply.value, turn.output)
          && Settled(h, s, Final(turn.output, turn.verified, turn.parsed))
          && (turn.parsed <==> Parses(w, h, t.call.reply.value))
          && s.verifyAttempts + s.parseAttempts < s.steps)
  }

  /** A turn that delivers the answer. */
  lemma EndsDone(w: Outside, h: Harness, task: string, s: State, t: Trace, gap: seq<Exchange>, r: Reply,
                 said: seq<Message>, v: Verdict)
    requires MidTurn(h, task, s, t, r, multiset{}, [], said) && t.Asked? && t.call.reply == Some(r)
    requires v.Final? && Answers(h, r, v.output) && Settled(h, s, v) && (v.parsed <==> Parses(w, h, r))
    requires v.verified.Some? ==> LastIs(gap, VerifyAnswer(v.verified.value))
    ensures EndsWell(w, h, s, t, gap, Ended(Done, v.output, v.verified, v.parsed))
  {
    hide Answers, Settled, Parses, Thrash.Progressing, Grown;
    assert Executed(t) + [] == Executed(t);
  }

  /** A turn that stops in the middle of a batch. */
  lemma EndsInBatch(w: Outside, h: Harness, task: string, s: State, t: Trace, r: Reply, owed: multiset<string>,
                    left: seq<ToolCall>, said: seq<Message>, s': State, t': Trace, gap: seq<Exchange>, stop: StopReason)
    requires MidTurn(h, task, s, t, r, owed, left, said) && Resumes(t, t')
    requires s'.steps == s.steps && s'.lastText == s.lastText
    requires stop in {MaxToolCalls, Timeout, NoProgress} && Grounded(t', gap, stop, None)
    requires Halted(h, s', Count(t'), stop) && Tallied(s'.toolCalls, t', stop) && Kept(h, t', s'.messages)
    ensures EndsWell(w, h, s', t', gap, Ended(stop, s'.lastText, None, false))
  {
    hide Halted, Tallied, Counters, Grounded, Grown, Kept;
  }

  /** What follows the model's reply: an answer in either channel, or the tools. */
  method React(h: Harness, task: string, s: State, r: Reply, deadline: real, run: nat, budget: RunBudget,
               w: Outside, ghost t: Trace)
    returns (turn: Turn, s': State, ghost t': Trace, ghost gap: seq<Exchange>)
    requires Tracks(w, budget, t, []) && Start(t).run == run && deadline == Deadline(Start(t))
    requires t.Asked? && t.call.reply == Some(r) && t.call.agent == h && (!FillsWindow(h, r) || h.compacts)
    requires MidTurn(h, task, s, t, r, multiset(Ids(r.calls)), Batch(t.call), [])
    modifies w`asked, w`log, w`ran, w`records, budget
    ensures Tracks(w, budget, t', gap) && Start(t') == Start(t)
    ensures s'.steps == s.steps && !turn.Raised?
    ensures turn.Continue? ==> Steady(h, task, s', t', gap)
    ensures turn.Ended? ==> EndsWell(w, h, s', t', gap, turn)
    decreases h, 4
  {
    hide MidTurn, Steady, EndsWell, Halted, Tallied, Grounded, Kept, Answers, Parses, Lawful, Truthful, Judged;
    hide Chronicle, Log, Ran, Records, Spent, Own, Executed;
    t' := t;
    var final := FinalCall(h, r.calls);
    if r.calls == [] || final.Some? {
      var v;
      ghost var said := [];
      if r.calls == [] {
        assert Ids(r.calls) == [] && Batch(t.call) == [];
        v, s', gap := AnswerInText(h, task, s, r, w, t);
      } else {
        v, s', gap := AnswerInChannel(h, task, s, r, final.value, w, t);
        said := FinalResults(Ids(r.calls), final.value.id, Accepted);
      }
      assert Chronicle(t) + [] + gap == Chronicle(t) + gap;
      if v.Again? {
        return Continue, s', t', gap;
      }
      EndsDone(w, h, task, s', t', gap, r, said, v);
      return Ended(Done, v.output, v.verified, v.parsed), s', t', gap;
    }
    var stop;
    stop, s', t', gap := Act(h, task, s, r, deadline, run, budget, w, t);
    if stop.None? {
      return Continue, s', t', gap;
    }
    EndsInBatch(w, h, task, s, t, r, multiset(Ids(r.calls)), Batch(t.call), [], s', t', gap, stop.value);
    turn := Ended(stop.value, s'.lastText, None, false);
  }

  /** A turn that ends before the model is asked. */
  lemma StopsAtHead(w: Outside, h: Harness, task: string, s: State, t: Trace, gap: seq<Exchange>,
                    asked: seq<Exchange>, stop: StopReason)
    requires Steady(h, task, s, t, gap) && stop in {MaxSteps, Timeout, BudgetExhausted}
    requires stop == MaxSteps ==> s.steps >= h.limits.maxSteps
    requires Grounded(t, asked, stop, None)
    ensures EndsWell(w, h, s, t, asked, Ended(stop, s.lastText, None, false))
  {
    hide Thrash.Progressing, Awaits, Grounded, Kept;
    AwaitedIsKept(h, t, gap, s.messages);
  }

  /** A turn that ends because the gateway refuses the call. */
  lemma StopsRefused(w: Outside, h: Harness, task: string, s: State, t: Trace, gap: seq<Exchange>,
                     asked: seq<Exchange>)
    requires Steady(h, task, s, t, gap) && s.steps < h.limits.maxSteps
    requires LastIs(asked, AskModel(PeriodCapSpent))
    ensures EndsWell(w, h, s.(steps := s.steps + 1), t, asked, Ended(BudgetExhausted, s.lastText, None, false))
  {
    hide Thrash.Progressing, Awaits, Kept;
    AwaitedIsKept(h, t, gap, s.messages);
  }

  /** A turn that ends because the window is full. */
  lemma StopsFull(w: Outside, h: Harness, task: string, s: State, t: Trace, gap: seq<Exchange>, now: real, c: Call,
                  r: Reply, s': State)
    requires Steady(h, task, s, t, gap) && s.steps < h.limits.maxSteps
    requires c.agent == h && c.reply == Some(r)
    requires s' == s.(steps := s.steps + 1, messages := s'.messages,
                      lastText := if r.text != "" then r.text else s.lastText)
    requires FillsWindow(h, r) && !h.compacts && s'.messages == c.transcript + [AssistantMessage(r)]
    ensures EndsWell(w, h, s', Asked(t, gap, now, c), [], Ended(ContextExhausted, s'.lastText, None, false))
  {
    hide Thrash.Progressing, Awaits;
    assert Requested(t) + [] == Requested(t);
  }

  lemma FailedTurn(h: Harness, task: string, s: State, t: Trace, gap: seq<Exchange>, calls: nat)
    requires Steady(h, task, s, t, gap) && s.steps < h.limits.maxSteps && calls == Count(t) + 1
    ensures calls <= Completions(h)
  {
    hide Awaits, Thrash.Progressing;
    WithinBound(h, s.(steps := s.steps + 1), calls);
  }

  /** One turn of the loop. */
  method TakeTurn(h: Harness, task: string, s: State, deadline: real, run: nat, budget: RunBudget, w: Outside,
                  ghost t: Trace, ghost gap: seq<Exchange>)
    returns (turn: Turn, s': State, ghost t': Trace, ghost gap': seq<Exchange>)
    requires Tracks(w, budget, t, gap) && Start(t).run == run && deadline == Deadline(Start(t))
    requires Steady(h, task, s, t, gap)
    modifies w`asked, w`log, w`ran, w`records, budget
    ensures Tracks(w, budget, t', gap') && Start(t') == Start(t)
    ensures turn.Continue? ==> Steady(h, task, s', t', gap') && s'.steps == s.steps + 1 <= h.limits.maxSteps
    ensures turn.Raised? ==> Count(t') <= Completions(h) && t'.Asked? && t'.call.reply.None? && gap' == []
    ensures turn.Ended? ==> EndsWell(w, h, s', t', gap', turn)
    decreases h, 5
  {
    hide Steady, MidTurn, EndsWell, Lawful, Truthful, Completions, Log, Ran, Records;
    s', t', gap' := s, t, gap;
    var ceiling, now := Ceiling(h, s, deadline, budget, w);
    if ceiling != Some(MaxSteps) {
      gap' := gap + [ReadClock(now)];
      Assoc(Chronicle(t), gap, [ReadClock(now)]);
    }
    if ceiling.Some? {
      assert ceiling.value == Timeout ==> LastIs(gap', ReadClock(now));
      StopsAtHead(w, h, task, s, t, gap, gap', ceiling.value);
      return Ended(ceiling.value, s'.lastText, None, false), s', t', gap';
    }
    s' := s.(steps := s.steps + 1);
    var answer;
    answer, t' := Ask(h, run, task, s, budget, w, t, gap, now);
    if answer.Refused? {
      gap' := gap + [ReadClock(now), AskModel(PeriodCapSpent)];
      StopsRefused(w, h, task, s, t, gap, gap');
      return Ended(BudgetExhausted, s'.lastText, None, false), s', t', gap';
    }
    gap' := [];
    if answer.Failed? {
      FailedTurn(h, task, s, t, gap, Count(t'));
      return Raised, s', t', gap';
    }
    var fits;
    fits, s' := Take(h, s', answer.reply);
    if !fits {
      StopsFull(w, h, task, s, t, gap, now, t'.call, answer.reply, s');
      return Ended(ContextExhausted, s'.lastText, None, false), s', t', gap';
    }
    TurnStarts(h, task, s, t, gap, now, t'.call, answer.reply, s');
    turn, s', t', gap' := React(h, task, s', answer.reply, deadline, run, budget, w, t');
  }

  lemma WithinBound(h: Harness, s: State, calls: nat)
    requires s.steps <= Pos(h.limits.maxSteps) && s.toolCalls <= Pos(h.limits.maxToolCalls)
    requires calls <= s.steps + s.toolCalls * Widest(h.delegates)
    ensures calls <= Completions(h)
  {
    hide Pos, Widest;
    MulMonotone(Widest(h.delegates), s.toolCalls, Pos(h.limits.maxToolCalls));
  }

  lemma StartsSteady(h: Harness, task: string, t: Trace)
    requires t.Begin? && t.opening.agent == h && t.opening.task == task
    ensures Steady(h, task, State(FirstMessages(h, task, t.opening.skills), 0, 0, 0, 0, [], ""), t, [])
  {
    var start := [System(h.systemPrompt), User(Prose(task))];
    Thrash.NothingThrashes<string>();
    assert start[1..][1..] == [];
    assert Scan(NOTHING_OWED, start[1..]) == NOTHING_OWED;
    DisclosedKeeps(start, t.opening.skills);
  }

  /** What a turn that ends well makes of the result. */
  lemma EndsHonestly(w: Outside, h: Harness, s: State, t: Trace, gap: seq<Exchange>, turn: Turn, cost: real)
    requires turn.Ended? && EndsWell(w, h, s, t, gap, turn)
    ensures var r := ResultOf(s, turn.stop, turn.output, turn.verified, turn.parsed, cost);
            Honest(w, h, r, t) && Grounded(t, gap, r.stop, r.verified)
    ensures Count(t) <= Completions(h)
  {
    hide Tallied, Answers, Parses, Grounded, Kept;
    WithinBound(h, s, Count(t));
  }

  /** The loop. It ends because every turn takes a step. */
  method Loop(h: Harness, task: string, messages: seq<Message>, run: nat, parent: Option<nat>, budget: RunBudget,
              w: Outside, ghost before: seq<Exchange>, ghost skills: seq<string>)
    returns (outcome: Outcome, ghost t: Trace, ghost tail: seq<Exchange>)
    requires w.asked == before + [NewRun, ReadSkills(skills)] && run == |before|
    requires messages == FirstMessages(h, task, skills)
    modifies w`asked, w`log, w`ran, w`records, budget
    ensures Tracks(w, budget, t, tail)
    ensures Start(t) == Opening(h, task, run, parent, before, skills, w.clock(|old(w.asked)|),
                                old(w.log), old(w.ran), old(w.records), old(budget.spent), budget.ceiling)
    ensures Count(t) <= Completions(h)
    ensures EndedAs(w, t, tail, outcome)
    decreases h, 6
  {
    hide Steady, EndsWell, Honest, Grounded, Completions;
    var spentBefore := budget.spent;
    var now := w.Clock();
    var deadline := now + h.limits.timeout;
    var s := State(messages, 0, 0, 0, 0, [], "");
    t := Begin(Opening(h, task, run, parent, before, skills, now, w.log, w.ran, w.records, budget.spent,
                       budget.ceiling));
    tail := [];
    ghost var o := Start(t);
    assert before + [NewRun, ReadSkills(skills)] + [ReadClock(now)] == Chronicle(t) + [];
    StartsSteady(h, task, t);
    hide Lawful, Truthful, Chronicle, Log, Ran, Records;
    while true
      invariant Tracks(w, budget, t, tail) && Start(t) == o
      invariant Steady(h, task, s, t, tail)
      decreases h.limits.maxSteps - s.steps
    {
      var turn;
      turn, s, t, tail := TakeTurn(h, task, s, deadline, run, budget, w, t, tail);
      if turn.Raised? {
        return Crashed(budget.spent - spentBefore), t, tail;
      }
      if turn.Ended? {
        var result := ResultOf(s, turn.stop, turn.output, turn.verified, turn.parsed, budget.spent - spentBefore);
        EndsHonestly(w, h, s, t, tail, turn, budget.spent - spentBefore);
        return Finished(result), t, tail;
      }
    }
  }

  /** One agent run, whether the caller's own or a delegated one: it gets a new id, is charged
      to the budget it is given, and is recorded with its own cost when it ends. The books it
      leaves say what holds of every provider call and every tool call made on the way, and
      account for every question asked. */
  method Run(h: Harness, parent: Option<nat>, task: string, budget: RunBudget, w: Outside)
    returns (outcome: Outcome, ghost t: Trace, ghost tail: seq<Exchange>)
    modifies w`asked, w`log, w`ran, w`records, budget
    ensures Lawful(t) && Truthful(w, t)
    ensures Start(t) == Opening(h, task, |old(w.asked)|, parent, old(w.asked), Start(t).skills, Start(t).began,
                                old(w.log), old(w.ran), old(w.records), old(budget.spent), budget.ceiling)
    ensures w.asked == Chronicle(t) + tail && w.log == Log(t) && w.ran == Ran(t) && budget.spent == Spent(t)
    ensures w.records == Records(t) + [RecordOf(t)]
    ensures Count(t) <= Completions(h)
    ensures EndedAs(w, t, tail, outcome)
    decreases h, 7
  {
    hide Honest, Grounded, Lawful, Truthful, Completions;
    ghost var before := w.asked;
    var run := w.Register();
    var messages;
    ghost var skills;
    messages, skills := Disclose([System(h.systemPrompt), User(Prose(task))], w);
    assert before + [NewRun] + [ReadSkills(skills)] == before + [NewRun, ReadSkills(skills)];
    outcome, t, tail := Loop(h, task, messages, run, parent, budget, w, before, skills);
    var cost := if outcome.Finished? then outcome.result.cost else outcome.cost;
    w.records := w.records + [Record(run, parent, h, task, cost)];
  }
}
