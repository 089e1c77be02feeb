/** The book that an agent run keeps of itself (`agents/harness.py`, `agents/runtime.py`): the
    rules that it obeys event by event, and what follows from them for every run and for the
    runs it delegated to. */
module RunTrace {
  import opened Wrappers
  import opened Transcript
  import opened AgentRun
  import Thrash

  /** What a run begins with: its agent and its task, its id and its caller's; what was asked
      before, the skills its task triggered and the time it began; the provider log, the tools
      executed and the runs recorded so far, and the budget. */
  datatype Opening = Opening(
    agent: Harness, task: string, run: nat, parent: Option<nat>,
    before: seq<Exchange>, skills: seq<string>, began: real,
    log: seq<Call>, ran: seq<Use>, records: seq<Record>, spent: real, ceiling: real)

  /** How a run went, so far: it began; after the questions in `gap` it read the clock and made
      a call; it read the clock and executed a tool; or it read the clock and executed a tool
      that handed a task to another run, which ended with the questions in `tail`. */
  datatype Trace =
    | Begin(opening: Opening)
    | Asked(prev: Trace, gap: seq<Exchange>, now: real, call: Call)
    | Used(prev: Trace, now: real, tool: ToolCall, text: string)
    | Delegated(prev: Trace, now: real, tool: ToolCall, sub: Trace, tail: seq<Exchange>, payload: Body)

  ghost function Start(t: Trace): Opening {
    if t.Begin? then t.opening else Start(t.prev)
  }

  ghost function Deadline(o: Opening): real {
    o.began + o.agent.limits.timeout
  }

  function AnswerOf(c: Call): Completion {
    if c.reply.Some? then Replies(c.reply.value) else Raises
  }

  /** Every question asked up to the last event. */
  ghost function Chronicle(t: Trace): seq<Exchange> {
    match t
    case Begin(o) => o.before + [NewRun, ReadSkills(o.skills), ReadClock(o.began)]
    case Asked(prev, gap, now, c) => Chronicle(prev) + gap + [ReadClock(now), AskModel(AnswerOf(c))]
    case Used(prev, now, tc, text) =>
      Chronicle(prev) + [ReadClock(now)]
      + if Delegate(Start(prev).agent.delegates, tc.request.name).None? then [UseTool(text)] else []
    case Delegated(_, _, _, sub, tail, _) => Chronicle(sub) + tail
  }

  ghost function Log(t: Trace): seq<Call> {
    match t
    case Begin(o) => o.log
    case Asked(prev, _, _, c) => Log(prev) + [c]
    case Used(prev, _, _, _) => Log(prev)
    case Delegated(_, _, _, sub, _, _) => Log(sub)
  }

  ghost function UseOf(t: Trace, tc: ToolCall): Use {
    Use(Start(t).agent, Start(t).run, tc.request, |Chronicle(t)| + 1)
  }

  ghost function Ran(t: Trace): seq<Use> {
    match t
    case Begin(o) => o.ran
    case Asked(prev, _, _, _) => Ran(prev)
    case Used(prev, _, tc, _) => Ran(prev) + [UseOf(prev, tc)]
    case Delegated(prev, _, tc, sub, _, _) => Ran(sub) + [UseOf(prev, tc)]
  }

  ghost function Spent(t: Trace): real {
    match t
    case Begin(o) => o.spent
    case Asked(prev, _, _, c) => Spent(prev) + c.charged
    case Used(prev, _, _, _) => Spent(prev)
    case Delegated(_, _, _, sub, _, _) => Spent(sub)
  }

  /** A run that is over leaves one record, with the difference it made to the budget. */
  ghost function Records(t: Trace): seq<Record> {
    match t
    case Begin(o) => o.records
    case Asked(prev, _, _, _) => Records(prev)
    case Used(prev, _, _, _) => Records(prev)
    case Delegated(_, _, _, sub, _, _) => Records(sub) + [RecordOf(sub)]
  }

  ghost function RecordOf(t: Trace): Record {
    var o := Start(t);
    Record(o.run, o.parent, o.agent, o.task, Spent(t) - o.spent)
  }

  /** The newest run id in use. */
  ghost function Newest(t: Trace): nat {
    match t
    case Begin(o) => o.run
    case Asked(prev, _, _, _) => Newest(prev)
    case Used(prev, _, _, _) => Newest(prev)
    case Delegated(_, _, _, sub, _, _) => Newest(sub)
  }

  ghost function Count(t: Trace): nat {
    match t
    case Begin(_) => 0
    case Asked(prev, _, _, _) => Count(prev) + 1
    case Used(prev, _, _, _) => Count(prev)
    case Delegated(prev, _, _, sub, _, _) => Count(prev) + Count(sub)
  }

  /** No reply to the run itself was ambiguous. */
  ghost predicate Clean(t: Trace) {
    t.Begin? || (Clean(t.prev) && (t.Asked? ==> Unambiguous(t.call)))
  }

  ghost function LastAsked(t: Trace): Option<Call> {
    if t.Begin? then None else if t.Asked? then Some(t.call) else LastAsked(t.prev)
  }

  /** The last text that the run's own model gave. */
  ghost function LastText(t: Trace): string {
    if t.Begin? then ""
    else if t.Asked? && t.call.reply.Some? && t.call.reply.value.text != "" then t.call.reply.value.text
    else LastText(t.prev)
  }

  /** How many calls the run made itself. */
  ghost function Own(t: Trace): nat {
    if t.Begin? then 0 else Own(t.prev) + if t.Asked? then 1 else 0
  }

  /** The tool calls that the run's own replies asked it to execute, batch after batch. */
  ghost function Requested(t: Trace): seq<ToolCall> {
    if t.Begin? then [] else if t.Asked? then Requested(t.prev) + Batch(t.call) else Requested(t.prev)
  }

  /** The tool calls that the run executed. */
  ghost function Executed(t: Trace): seq<ToolCall> {
    if t.Begin? then [] else if t.Asked? then Executed(t.prev) else Executed(t.prev) + [t.tool]
  }

  /** The results of the tools executed since the last reply. */
  ghost function Results(t: Trace): seq<Message> {
    match t
    case Begin(_) => []
    case Asked(_, _, _, _) => []
    case Used(prev, _, tc, text) => Results(prev) + [Tool(tc.id, Prose(text))]
    case Delegated(prev, _, tc, _, _, payload) => Results(prev) + [Tool(tc.id, payload)]
  }

  function FirstMessages(h: Harness, task: string, skills: seq<string>): seq<Message> {
    [System(h.systemPrompt), User(Prose(task))] + Disclosed(skills)
  }

  /** A run starts with its agent's prompt, its task, and the skills that these triggered. */
  lemma FirstMessagesExactly(h: Harness, task: string, skills: seq<string>)
    ensures var ms := FirstMessages(h, task, skills);
            && |ms| == 2 + |skills| && ms[0] == System(h.systemPrompt) && ms[1] == User(Prose(task))
            && forall i :: 0 <= i < |skills| ==> ms[2 + i] == User(Skill(skills[i]))
  {
  }

  /** Each executed call adds its own result, under its own id: the text that the tool gave,
      or what the delegated run handed back; a reply starts anew. */
  lemma ResultsExactly(t: Trace)
    requires t.Asked? || t.Used? || t.Delegated?
    ensures t.Asked? ==> Results(t) == []
    ensures t.Used? ==> Results(t) == Results(t.prev) + [Tool(t.tool.id, Prose(t.text))]
    ensures t.Delegated? ==> Results(t) == Results(t.prev) + [Tool(t.tool.id, t.payload)]
  {
  }

  /** `ms` is the transcript that the run is to send next, if it has asked `gap` since its last
      event. */
  ghost predicate Awaits(t: Trace, gap: seq<Exchange>, ms: seq<Message>) {
    match LastAsked(t)
    case None => gap == [] && ms == FirstMessages(Start(t).agent, Start(t).task, Start(t).skills)
    case Some(c) => c.reply.Some? && Follows(c, Results(t), gap, ms)
  }

  /** The tool call may be executed: it is the next one asked for, and repeats no cycle. */
  ghost predicate Admits(t: Trace, tc: ToolCall) {
    && Executed(t) + [tc] <= Requested(t)
    && !Thrash.Thrashing(Signatures(Executed(t) + [tc]))
  }

  /** How a delegated run begins: with the target and the task of the tool call, and otherwise
      where its caller is. */
  ghost predicate HandsOver(t: Trace, now: real, tc: ToolCall, o: Opening) {
    && Target(Start(t).agent, tc) == Some(o.agent)
    && o == Opening(o.agent, tc.task, |Chronicle(t)| + 1, Some(Start(t).run),
                    Chronicle(t) + [ReadClock(now)], o.skills, o.began,
                    Log(t), Ran(t), Records(t), Spent(t), Start(t).ceiling)
  }

  /** The rules that every run keeps, event by event. */
  ghost predicate Lawful(t: Trace) {
    match t
    case Begin(o) => o.run == |o.before|
    case Asked(prev, gap, now, c) =>
      && Lawful(prev)
      && now < Deadline(Start(prev))
      && Spent(prev) < Start(prev).ceiling
      && Executed(prev) == Requested(prev)
      && c == Call(Start(prev).agent, Start(prev).run, Start(prev).task, c.transcript, c.reply, ChargeOf(c.reply),
                   |Chronicle(prev)| + |gap| + 1)
      && Awaits(prev, gap, c.transcript)
      && Anchored(c.transcript, c.agent.systemPrompt, c.task)
      && (Clean(prev) ==> ProtocolValid(c.transcript))
    case Used(prev, now, tc, text) =>
      && Lawful(prev)
      && now < Deadline(Start(prev))
      && Admits(prev, tc)
      && Target(Start(prev).agent, tc).None?
      && (Delegate(Start(prev).agent.delegates, tc.request.name).Some? ==> text == NO_TASK)
    case Delegated(prev, now, tc, sub, _, _) =>
      && Lawful(prev) && Lawful(sub)
      && now < Deadline(Start(prev))
      && Admits(prev, tc)
      && HandsOver(prev, now, tc, Start(sub))
  }

  // ----- the same, call by call -----

  ghost function Calls(t: Trace): seq<Call> {
    match t
    case Begin(_) => []
    case Asked(prev, _, _, c) => Calls(prev) + [c]
    case Used(prev, _, _, _) => Calls(prev)
    case Delegated(prev, _, _, sub, _, _) => Calls(prev) + Calls(sub)
  }

  /** The record of the run `sub`, with its cost as the sum of its charges. */
  ghost function Reports(sub: Trace): Record {
    RecordOf(sub).(cost := Charged(Calls(sub)))
  }

  ghost function Runs(t: Trace): seq<Record> {
    match t
    case Begin(_) => []
    case Asked(prev, _, _, _) => Runs(prev)
    case Used(prev, _, _, _) => Runs(prev)
    case Delegated(prev, _, _, sub, _, _) => Runs(prev) + Runs(sub) + [Reports(sub)]
  }

  ghost function Uses(t: Trace): seq<Use> {
    match t
    case Begin(_) => []
    case Asked(prev, _, _, _) => Uses(prev)
    case Used(prev, _, tc, _) => Uses(prev) + [UseOf(prev, tc)]
    case Delegated(prev, _, tc, sub, _, _) => Uses(prev) + Uses(sub) + [UseOf(prev, tc)]
  }

  /** What a trace abbreviates: its calls and records follow what was there before, and the
      budget grew by what the calls charged. */
  ghost predicate Adds(t: Trace) {
    var o := Start(t);
    && Log(t) == o.log + Calls(t)
    && Records(t) == o.records + Runs(t)
    && Spent(t) == o.spent + Charged(Calls(t))
    && Count(t) == |Calls(t)|
    && LastAsked(t) == LastOf(Calls(t), o.run)
    && (Clean(t) <==> OwnClean(Calls(t), o.run))
  }

  ghost predicate Facts(t: Trace) {
    var o := Start(t);
    RunFacts(o.run, Newest(t), o.spent, o.ceiling, Calls(t), Runs(t))
  }

  /** A lawful run, whatever the model, the tools and its delegates did: every transcript
      sent, by it or by a run it delegated to, is anchored, valid up to the first ambiguous
      reply to the run that sent it and invalid right after one; each extends the one that
      its run sent before; every call was affordable; and what the run spent is what its own
      calls cost plus what its delegated runs report. */
  lemma {:induction false} LawfulRun(t: Trace)
    requires Lawful(t)
    ensures Adds(t) && Facts(t) && Newest(t) < |Chronicle(t)|
  {
    hide Facts, Adds;
    match t {
      case Begin(_) =>
        NothingYet(t);
      case Asked(prev, gap, now, c) =>
        LawfulRun(prev);
        LawfulCall(prev, gap, now, c);
      case Used(prev, now, tc, text) =>
        LawfulRun(prev);
        NothingAsked(prev, now, tc, text);
      case Delegated(prev, now, tc, sub, tail, payload) =>
        LawfulRun(prev);
        LawfulRun(sub);
        LawfulHandOff(prev, now, tc, sub, tail, payload);
    }
  }

  lemma NothingYet(t: Trace)
    requires t.Begin?
    ensures Adds(t) && Facts(t)
  {
    EmptyRun(t.opening.run, t.opening.spent, t.opening.ceiling);
  }

  lemma NothingAsked(prev: Trace, now: real, tc: ToolCall, text: string)
    requires Adds(prev) && Facts(prev)
    ensures Adds(Used(prev, now, tc, text)) && Facts(Used(prev, now, tc, text))
  {
    hide RunFacts, Charged, LastOf, OwnClean;
  }

  /** The same, with what the run began with spelled out. */
  lemma LawfulRunFrom(t: Trace, o: Opening)
    requires Lawful(t) && Start(t) == o
    ensures RunFacts(o.run, Newest(t), o.spent, o.ceiling, Calls(t), Runs(t))
    ensures Log(t) == o.log + Calls(t) && Records(t) == o.records + Runs(t)
    ensures Spent(t) == o.spent + Charged(Calls(t)) && Count(t) == |Calls(t)|
  {
    LawfulRun(t);
    hide RunFacts, Charged, LastOf, OwnClean;
  }

  /** What a run sends next follows the rules. */
  lemma NextSends(prev: Trace, gap: seq<Exchange>, c: Call)
    requires Adds(prev) && c.run == Start(prev).run
    requires Awaits(prev, gap, c.transcript) && Anchored(c.transcript, c.agent.systemPrompt, c.task)
    requires Clean(prev) ==> ProtocolValid(c.transcript)
    ensures Sends(Calls(prev), c) && Extends(LastOf(Calls(prev), c.run), c.transcript)
  {
    hide Charged, LastOf, OwnClean, Anchored, ProtocolValid, FinalResults, Unambiguous;
    if LastAsked(prev).Some? {
      var last := LastAsked(prev).value;
      if !Unambiguous(last) {
        AmbiguityShows(last, Results(prev), gap, c.transcript);
      }
      GrowsFrom(last, Results(prev), gap, c.transcript);
    }
  }

  lemma GrowsFrom(c: Call, results: seq<Message>, gap: seq<Exchange>, ms: seq<Message>)
    requires c.reply.Some? && Follows(c, results, gap, ms)
    ensures Grown(c) <= ms
  {
    hide Grown, FinalResults;
  }

  lemma LawfulCall(prev: Trace, gap: seq<Exchange>, now: real, c: Call)
    requires Lawful(Asked(prev, gap, now, c)) && Adds(prev) && Facts(prev)
    ensures Adds(Asked(prev, gap, now, c)) && Facts(Asked(prev, gap, now, c))
  {
    NextSends(prev, gap, c);
    hide RunFacts, Charged, LastOf, OwnClean, Extends, Sends, Awaits, Anchored, ProtocolValid;
    AddCall(Start(prev).run, Newest(prev), Start(prev).spent, Start(prev).ceiling, Calls(prev), Runs(prev), c);
    CallAdds(prev, gap, now, c);
  }

  lemma CallAdds(prev: Trace, gap: seq<Exchange>, now: real, c: Call)
    requires Adds(prev) && c.run == Start(prev).run
    ensures Adds(Asked(prev, gap, now, c))
  {
    hide Charged, OwnCost, LastOf, OwnClean, Unambiguous;
    var calls := Calls(prev);
    AddSums(calls, c);
    OwnCleanConcat(calls, [c], c.run);
    OneUnambiguous(c);
    Assoc(Start(prev).log, calls, [c]);
  }

  lemma OneUnambiguous(c: Call)
    ensures OwnClean([c], c.run) <==> Unambiguous(c)
  {
    hide Unambiguous;
    assert c in [c];
  }

  lemma SpentSoFar(t: Trace)
    requires Adds(t)
    ensures Spent(t) == Start(t).spent + Charged(Calls(t))
    ensures Records(t) == Start(t).records + Runs(t)
  {
  }

  lemma LawfulHandOff(prev: Trace, now: real, tc: ToolCall, sub: Trace, tail: seq<Exchange>, payload: Body)
    requires HandsOver(prev, now, tc, Start(sub)) && Newest(prev) < |Chronicle(prev)|
    requires Adds(prev) && Adds(sub) && Facts(prev) && Facts(sub)
    ensures Adds(Delegated(prev, now, tc, sub, tail, payload)) && Facts(Delegated(prev, now, tc, sub, tail, payload))
  {
    hide Adds, RunFacts;
    SpentSoFar(prev);
    SpentSoFar(sub);
    AddRun(Start(prev).run, Newest(prev), Start(prev).spent, Start(prev).ceiling, Calls(prev), Runs(prev),
           Start(sub).run, Newest(sub), Start(sub).spent, Calls(sub), Runs(sub), Reports(sub));
    NewestIsNot(prev);
    OnlyLater(sub, Start(prev).run);
    HandOffAdds(prev, now, tc, sub, tail, payload);
  }

  lemma NewestIsNot(t: Trace)
    requires Facts(t)
    ensures Start(t).run <= Newest(t)
  {
  }

  lemma OnlyLater(sub: Trace, run: nat)
    requires Facts(sub)
    ensures forall c :: c in Calls(sub) ==> c.run >= Start(sub).run
  {
  }

  lemma HandOffAdds(prev: Trace, now: real, tc: ToolCall, sub: Trace, tail: seq<Exchange>, payload: Body)
    requires Adds(prev) && Adds(sub)
    requires HandsOver(prev, now, tc, Start(sub))
    requires forall c :: c in Calls(sub) ==> c.run != Start(prev).run
    ensures Adds(Delegated(prev, now, tc, sub, tail, payload))
  {
    hide Charged, OwnCost, LastOf, OwnClean, Unambiguous;
    ChargedConcat(Calls(prev), Calls(sub));
    OthersAreNotOwn(Calls(prev), Calls(sub), Start(prev).run);
    OwnCleanConcat(Calls(prev), Calls(sub), Start(prev).run);
    OthersAreClean(Calls(sub), Start(prev).run);
    Assoc(Start(prev).log, Calls(prev), Calls(sub));
    HandOffRecords(prev, now, tc, sub);
  }

  lemma OthersAreClean(calls: seq<Call>, run: nat)
    requires forall c :: c in calls ==> c.run != run
    ensures OwnClean(calls, run)
  {
    hide Unambiguous;
  }

  lemma HandOffRecords(prev: Trace, now: real, tc: ToolCall, sub: Trace)
    requires Adds(prev) && Adds(sub) && HandsOver(prev, now, tc, Start(sub))
    ensures Records(sub) + [RecordOf(sub)] == Start(prev).records + (Runs(prev) + Runs(sub) + [Reports(sub)])
  {
    hide Adds, Charged;
    SpentSoFar(prev);
    SpentSoFar(sub);
    Assoc(Start(prev).records, Runs(prev), Runs(sub));
    Assoc(Start(prev).records, Runs(prev) + Runs(sub), [Reports(sub)]);
  }

  lemma Assoc<T>(a: seq<T>, b: seq<T>, c: seq<T>)
    ensures a + b + c == a + (b + c)
  {
  }

  // ----- who was asked to do what -----

  /** Every call is made by the agent and for the task of its run: this one's, or those in the
      record of a delegated one. */
  ghost predicate Assigned(o: Opening, calls: seq<Call>, runs: seq<Record>) {
    forall c :: c in calls ==> OnTask(o, runs, c)
  }

  ghost predicate OnTask(o: Opening, runs: seq<Record>, c: Call) {
    || (c.run == o.run && c.agent == o.agent && c.task == o.task)
    || exists r :: r in runs && r.run == c.run && r.agent == c.agent && r.task == c.task
  }

  /** No call of a lawful run, at any depth, is made by another agent or for another task than
      its run was given. */
  lemma {:induction false} EveryCallOnTask(t: Trace)
    requires Lawful(t)
    ensures Assigned(Start(t), Calls(t), Runs(t))
  {
    match t {
      case Begin(_) =>
      case Asked(prev, _, _, c) =>
        EveryCallOnTask(prev);
      case Used(prev, _, _, _) =>
        EveryCallOnTask(prev);
      case Delegated(prev, _, _, sub, _, _) =>
        EveryCallOnTask(prev);
        EveryCallOnTask(sub);
        HandOffAssigned(Start(prev), Start(sub), Calls(prev), Runs(prev), Calls(sub), Runs(sub), Reports(sub));
    }
  }

  lemma HandOffAssigned(o: Opening, below: Opening, calls: seq<Call>, runs: seq<Record>, sub: seq<Call>,
                        subRuns: seq<Record>, r: Record)
    requires Assigned(o, calls, runs) && Assigned(below, sub, subRuns)
    requires r.run == below.run && r.agent == below.agent && r.task == below.task
    ensures Assigned(o, calls + sub, runs + subRuns + [r])
  {
    var all := runs + subRuns + [r];
    assert forall x :: x in runs || x in subRuns || x == r ==> x in all;
    forall c | c in calls + sub ensures OnTask(o, all, c) {
      if c in calls {
        assert OnTask(o, runs, c);
      } else {
        assert OnTask(below, subRuns, c);
      }
    }
  }

  // ----- nothing is done past a deadline -----

  /** What was done at turn `at` for the run `run` of `agent` was let through by the reading of
      the clock just before, which is earlier than the run's own deadline. */
  ghost predicate InTime(q: seq<Exchange>, agent: Harness, run: nat, at: nat) {
    && run + 2 < at <= |q|
    && q[run] == NewRun && q[run + 2].ReadClock? && q[at - 1].ReadClock?
    && q[at - 1].now < q[run + 2].now + agent.limits.timeout
  }

  ghost predicate AllInTime(q: seq<Exchange>, calls: seq<Call>, uses: seq<Use>) {
    && (forall c :: c in calls ==> InTime(q, c.agent, c.run, c.at) && c.at < |q| && q[c.at] == AskModel(AnswerOf(c)))
    && (forall u :: u in uses ==> InTime(q, u.agent, u.run, u.at))
  }

  lemma LaterInTime(q: seq<Exchange>, later: seq<Exchange>, calls: seq<Call>, uses: seq<Use>)
    requires AllInTime(q, calls, uses) && q <= later
    ensures AllInTime(later, calls, uses)
  {
    forall c | c in calls ensures InTime(later, c.agent, c.run, c.at) && later[c.at] == AskModel(AnswerOf(c)) {
      assert InTime(q, c.agent, c.run, c.at);
    }
    forall u | u in uses ensures InTime(later, u.agent, u.run, u.at) {
      assert InTime(q, u.agent, u.run, u.at);
    }
  }

  lemma TogetherInTime(q: seq<Exchange>, calls: seq<Call>, uses: seq<Use>, calls': seq<Call>, uses': seq<Use>)
    requires AllInTime(q, calls, uses) && AllInTime(q, calls', uses')
    ensures AllInTime(q, calls + calls', uses + uses')
  {
    hide InTime;
  }

  /** The questions asked before and at the start of a run stay where they are. */
  lemma {:induction false} StartStays(t: Trace)
    requires Lawful(t)
    ensures Chronicle(Begin(Start(t))) <= Chronicle(t)
  {
    match t {
      case Begin(_) =>
      case Asked(prev, gap, now, c) =>
        StartStays(prev);
      case Used(prev, _, _, _) =>
        StartStays(prev);
      case Delegated(prev, now, tc, sub, _, _) =>
        StartStays(prev);
        StartStays(sub);
        assert Chronicle(prev) <= Chronicle(Begin(Start(sub)));
    }
  }

  /** `now` read at the end of `q`, when `o` began the run, lets through what comes next. */
  lemma ReadInTime(o: Opening, q: seq<Exchange>, now: real)
    requires o.run == |o.before| && Chronicle(Begin(o)) <= q && now < Deadline(o)
    ensures InTime(q + [ReadClock(now)], o.agent, o.run, |q| + 1)
  {
    var begun := Chronicle(Begin(o));
    assert begun[o.run] == NewRun && begun[o.run + 2] == ReadClock(o.began);
    assert q[o.run] == begun[o.run] && q[o.run + 2] == begun[o.run + 2];
  }

  lemma CallInTime(prev: Trace, gap: seq<Exchange>, now: real, c: Call)
    requires Lawful(Asked(prev, gap, now, c)) && Chronicle(Begin(Start(prev))) <= Chronicle(prev)
    requires AllInTime(Chronicle(prev), Calls(prev), Uses(prev))
    ensures AllInTime(Chronicle(Asked(prev, gap, now, c)), Calls(prev) + [c], Uses(prev))
  {
    hide Awaits, Anchored, ProtocolValid;
    var o, asked, q := Start(prev), Chronicle(prev) + gap, Chronicle(Asked(prev, gap, now, c));
    LawfulStart(prev);
    ReadInTime(o, asked, now);
    assert q == asked + [ReadClock(now)] + [AskModel(AnswerOf(c))];
    assert AllInTime(q, [c], []);
    hide InTime, AllInTime;
    LaterInTime(Chronicle(prev), q, Calls(prev), Uses(prev));
    TogetherInTime(q, Calls(prev), Uses(prev), [c], []);
    assert Uses(prev) + [] == Uses(prev);
  }

  lemma UseInTime(prev: Trace, now: real, tc: ToolCall, q: seq<Exchange>)
    requires Lawful(prev) && Chronicle(Begin(Start(prev))) <= Chronicle(prev) && now < Deadline(Start(prev))
    requires Chronicle(prev) + [ReadClock(now)] <= q
    ensures AllInTime(q, [], [UseOf(prev, tc)])
  {
    LawfulStart(prev);
    ReadInTime(Start(prev), Chronicle(prev), now);
    assert AllInTime(Chronicle(prev) + [ReadClock(now)], [], [UseOf(prev, tc)]);
    hide InTime, AllInTime;
    LaterInTime(Chronicle(prev) + [ReadClock(now)], q, [], [UseOf(prev, tc)]);
  }

  lemma OneMoreInTime(prev: Trace, now: real, tc: ToolCall, q: seq<Exchange>, calls: seq<Call>, uses: seq<Use>)
    requires Lawful(prev) && Chronicle(Begin(Start(prev))) <= Chronicle(prev) && now < Deadline(Start(prev))
    requires Chronicle(prev) + [ReadClock(now)] <= q && AllInTime(q, calls, uses)
    ensures AllInTime(q, calls, uses + [UseOf(prev, tc)])
  {
    hide InTime, AllInTime, Lawful;
    UseInTime(prev, now, tc, q);
    TogetherInTime(q, calls, uses, [], [UseOf(prev, tc)]);
    assert calls + [] == calls;
  }

  lemma HandOffInTime(prev: Trace, now: real, tc: ToolCall, sub: Trace, q: seq<Exchange>)
    requires Lawful(prev) && Chronicle(Begin(Start(prev))) <= Chronicle(prev) && now < Deadline(Start(prev))
    requires HandsOver(prev, now, tc, Start(sub)) && Chronicle(Begin(Start(sub))) <= Chronicle(sub) <= q
    requires AllInTime(Chronicle(prev), Calls(prev), Uses(prev)) && AllInTime(Chronicle(sub), Calls(sub), Uses(sub))
    ensures AllInTime(q, Calls(prev) + Calls(sub), Uses(prev) + Uses(sub) + [UseOf(prev, tc)])
  {
    hide InTime, AllInTime, Lawful;
    assert Chronicle(prev) + [ReadClock(now)] <= Chronicle(Begin(Start(sub)));
    LaterInTime(Chronicle(prev), q, Calls(prev), Uses(prev));
    LaterInTime(Chronicle(sub), q, Calls(sub), Uses(sub));
    TogetherInTime(q, Calls(prev), Uses(prev), Calls(sub), Uses(sub));
    OneMoreInTime(prev, now, tc, q, Calls(prev) + Calls(sub), Uses(prev) + Uses(sub));
  }

  lemma {:induction false} LawfulStart(t: Trace)
    requires Lawful(t)
    ensures Start(t).run == |Start(t).before|
  {
    if !t.Begin? {
      LawfulStart(t.prev);
    }
  }

  /** In a lawful run every completion, its own or a delegated run's, comes right after a
      reading of the clock that is earlier than the deadline of the run that asked for it, and
      so does every tool that is executed. */
  lemma {:induction false} NothingPastDeadline(t: Trace)
    requires Lawful(t)
    ensures AllInTime(Chronicle(t), Calls(t), Uses(t))
  {
    hide InTime;
    match t {
      case Begin(_) =>
      case Asked(prev, gap, now, c) =>
        NothingPastDeadline(prev);
        StartStays(prev);
        CallInTime(prev, gap, now, c);
      case Used(prev, now, tc, text) =>
        NothingPastDeadline(prev);
        StartStays(prev);
        LaterInTime(Chronicle(prev), Chronicle(t), Calls(prev), Uses(prev));
        OneMoreInTime(prev, now, tc, Chronicle(t), Calls(prev), Uses(prev));
      case Delegated(prev, now, tc, sub, _, _) =>
        NothingPastDeadline(prev);
        NothingPastDeadline(sub);
        StartStays(prev);
        StartStays(sub);
        HandOffInTime(prev, now, tc, sub, Chronicle(t));
    }
  }

  // ----- what was executed -----

  /** A lawful run executes, in order, what its replies asked for, from the first request on,
      and what it executes is never a repeated cycle. */
  lemma {:induction false} ExecutedIsProgress(t: Trace)
    requires Lawful(t)
    ensures Executed(t) <= Requested(t)
    ensures Thrash.Progressing(Signatures(Executed(t))) && Thrash.Progressing(Requests(Executed(t)))
  {
    hide Awaits, Anchored, ProtocolValid, HandsOver;
    if t.Begin? {
      Thrash.NothingThrashes<string>();
      assert Signatures([]) == [];
    } else {
      ExecutedIsProgress(t.prev);
      if !t.Asked? {
        OneMoreSignature(Executed(t.prev), t.tool);
        Thrash.StillProgressing(Signatures(Executed(t.prev)), Signature(t.tool.request));
      }
    }
    Thrash.RenamedProgress(Signature, Requests(Executed(t)));
  }

  lemma OneMoreSignature(calls: seq<ToolCall>, tc: ToolCall)
    ensures Requests(calls + [tc]) == Requests(calls) + [tc.request]
    ensures Signatures(calls + [tc]) == Signatures(calls) + [Signature(tc.request)]
  {
  }

  lemma {:induction false} ExecutedByConcat(a: seq<Use>, b: seq<Use>, run: nat)
    ensures ExecutedBy(a + b, run) == ExecutedBy(a, run) + ExecutedBy(b, run)
    decreases |b|
  {
    if b == [] {
      assert a + b == a;
    } else {
      assert (a + b)[..|a + b| - 1] == a + b[..|b| - 1];
      ExecutedByConcat(a, b[..|b| - 1], run);
    }
  }

  lemma {:induction false} NothingExecutedBy(uses: seq<Use>, run: nat)
    requires forall u :: u in uses ==> u.run != run
    ensures ExecutedBy(uses, run) == []
    decreases |uses|
  {
    if uses != [] {
      assert uses[|uses| - 1] in uses;
      NothingExecutedBy(uses[..|uses| - 1], run);
    }
  }

  ghost predicate UsesFacts(t: Trace) {
    && Ran(t) == Start(t).ran + Uses(t)
    && Start(t).run <= Newest(t) < |Chronicle(t)|
    && (forall u :: u in Uses(t) ==> Start(t).run <= u.run <= Newest(t))
    && ExecutedBy(Uses(t), Start(t).run) == Requests(Executed(t))
  }

  ghost predicate NoneRepeats(uses: seq<Use>) {
    forall run: nat :: Thrash.Progressing(ExecutedBy(uses, run))
  }

  /** The tools that a lawful run and the runs it delegated to executed: its own are
      `Executed`, and no run, at any depth, executed a block of one to three calls three
      times in a row. */
  lemma {:induction false} NoRunRepeatsItself(t: Trace)
    requires Lawful(t)
    ensures UsesFacts(t) && NoneRepeats(Uses(t))
  {
    hide Awaits, Anchored, ProtocolValid, HandsOver, Admits;
    match t {
      case Begin(_) =>
        Thrash.NothingThrashes<Request>();
        assert Requests([]) == [];
      case Asked(prev, _, _, c) =>
        NoRunRepeatsItself(prev);
      case Used(prev, now, tc, text) =>
        NoRunRepeatsItself(prev);
        ExecutedIsProgress(t);
        UsesOfOne(prev, now, tc, text);
      case Delegated(prev, now, tc, sub, tail, payload) =>
        NoRunRepeatsItself(prev);
        NoRunRepeatsItself(sub);
        ExecutedIsProgress(t);
        UsesOfHandOff(prev, now, tc, sub, tail, payload);
    }
  }

  /** One more tool executed by the run `u.run`. */
  lemma OneMoreUse(uses: seq<Use>, u: Use)
    requires NoneRepeats(uses) && Thrash.Progressing(ExecutedBy(uses, u.run) + [u.request])
    ensures NoneRepeats(uses + [u]) && ExecutedBy(uses + [u], u.run) == ExecutedBy(uses, u.run) + [u.request]
  {
    hide Thrash.Progressing;
    assert (uses + [u])[..|uses|] == uses;
    forall run: nat ensures Thrash.Progressing(ExecutedBy(uses + [u], run)) {
      assert ExecutedBy(uses + [u], run) == ExecutedBy(uses, run) + if run == u.run then [u.request] else [];
      assert run != u.run ==> ExecutedBy(uses + [u], run) == ExecutedBy(uses, run);
    }
  }

  lemma UsesOfOne(prev: Trace, now: real, tc: ToolCall, text: string)
    requires UsesFacts(prev) && NoneRepeats(Uses(prev))
    requires Thrash.Progressing(Requests(Executed(prev) + [tc]))
    ensures var t := Used(prev, now, tc, text);
            UsesFacts(t) && NoneRepeats(Uses(t))
  {
    hide NoneRepeats, Thrash.Progressing, ExecutedBy, Requests, Delegate;
    var use := UseOf(prev, tc);
    OneMoreSignature(Executed(prev), tc);
    Assoc(Start(prev).ran, Uses(prev), [use]);
    OneMoreUse(Uses(prev), use);
  }

  lemma UsesOfHandOff(prev: Trace, now: real, tc: ToolCall, sub: Trace, tail: seq<Exchange>, payload: Body)
    requires UsesFacts(prev) && UsesFacts(sub) && HandsOver(prev, now, tc, Start(sub))
    requires NoneRepeats(Uses(prev)) && NoneRepeats(Uses(sub))
    requires Thrash.Progressing(Requests(Executed(prev) + [tc]))
    ensures var t := Delegated(prev, now, tc, sub, tail, payload);
            UsesFacts(t) && NoneRepeats(Uses(t))
  {
    hide NoneRepeats, Thrash.Progressing, ExecutedBy, Requests;
    var both, use := Uses(prev) + Uses(sub), UseOf(prev, tc);
    TwoRuns(Uses(prev), Uses(sub), Newest(prev), Start(prev).run);
    OneMoreSignature(Executed(prev), tc);
    OneMoreUse(both, use);
    Assoc(Start(prev).ran, Uses(prev), Uses(sub));
    Assoc(Start(prev).ran, both, [use]);
  }

  /** The tools of runs with different ids. */
  lemma TwoRuns(a: seq<Use>, b: seq<Use>, newest: nat, own: nat)
    requires NoneRepeats(a) && NoneRepeats(b) && own <= newest
    requires (forall u :: u in a ==> u.run <= newest) && forall u :: u in b ==> newest < u.run
    ensures NoneRepeats(a + b) && ExecutedBy(a + b, own) == ExecutedBy(a, own)
  {
    hide Thrash.Progressing, ExecutedBy;
    forall run: nat
      ensures ExecutedBy(a + b, run) == if run <= newest then ExecutedBy(a, run) else ExecutedBy(b, run)
    {
      ExecutedByConcat(a, b, run);
      if run <= newest {
        NothingExecutedBy(b, run);
      } else {
        NothingExecutedBy(a, run);
      }
    }
  }
}
