# Sports data agents: a verified model

A Dafny model of the decision-making code of a sports-data agent system, with proofs about
whole runs of it. The system runs language-model agents in a bounded loop, bets within a
policy, removes bookmaker margins, looks for arbitrage, schedules its own jobs and writes to
fantasy teams. Each part below is one or more modules here.

- **The agent loop** (`Transcript`, `Thrash`, `AgentRun`, `RunTrace`, `AgentLoop`,
  `Team`). The loop of one agent run: seven stop reasons, two retry counters, tool batches, a final answer in
  prose or through a tool, compaction of the transcript in mid-run, and tool calls that
  delegate to another agent's run under the same budget. The model, the tools, the clock and
  the verifier are arbitrary functions of a turn counter, and `AgentLoop.Outside` keeps every
  question asked of them with its answer, so every result holds whatever they answer.
  `RunTrace.Trace` is the book a run keeps of its completions, its tool calls and the runs it
  delegated to. `AgentLoop.Run` proves that the book is lawful and accounts for every question
  asked; the lemmas of `RunTrace` say what a lawful book implies.
- **The delegation lint** (`Delegation`). The recursive three-colour search over the loaded
  agents, in place, with a topological order as the witness of acyclicity.
- **The money plane** (`Scanner`, `Policy`, `Ledger`, `MoneyPlane`, `Clearance`, `Expiry`,
  `OpenRisk`, `SharedPrefix`, `PlacedEdges`, `PayloadGap`, `Desk`). Scoring each book against the median of
  the others, the policy gate, the append-only ledger, proposals and approvals, and the single
  path to a placement. `MoneyPlane` is the state machine whose steps are scans, approvals,
  rejections, listings and placement batches, each intent of a batch at its own reading of the
  clock; the modules after it are further results about its runs. `Desk` is the code, with its
  objects updated in place, proved to take exactly those steps. Bookmakers' answers are
  arbitrary.
- **Margins and arbitrage** (`Devig`, `FairShares`, `Arbitrage`, `ArbPayoff`), over real numbers.
- **The scheduler and the rate limiter** (`Schedule`, `RateLimit`).
- **Fantasy writes** (`Fantasy`) and **the backtest** (`Backtest`, `Replay`, `Names`).

Paths in this text and in the Dafny comments are below `src/sportsdata_agents/`. `Reals` holds
the arithmetic of products and inverses that the price and margin proofs share, and `Wrappers`
the option type.

Where the code differs from its own documentation, the model follows the code:

- `agents/loader.py:169` repeats the last agent in the text of a reported cycle, because the
  path already ends in it. `Delegation.ReportOf` says so; the cycle itself is the path from
  the target on.
- `quant/devig.py:13-14` says that a marked probability never passes 1. `MarksStayProbabilities`
  shows that this holds for every probability exactly for curves without a margin floor.
- `fantasy/execute.py:150-152` says that a failed read-back is always a mismatch.
  `FailedReadBack` gives the exact condition under which it is not.
- `betting/ledger.py:104-106` describes the open exposure as everything placed and not yet
  settled. It also leaves out an intent that has a refused row under the same id:
  `ExposureIsAtRisk` is exact about when that matters. No run whose intent ids are new
  reaches such a ledger (`OpenRisk.RiskIsCapped`). A run with two proposals whose ids share
  their first twelve characters does (`SharedPrefix.HidingIsReached`), and
  `RefusalHidesPlacement` evaluates a ledger of that kind.
- `betting/approvals.py:13-17` says that an expired proposal is never executed. A batch looks
  at the expiry when it selects, and each intent reads its own clock later.
  `NeverExpiredExactly` says when the promise holds, `OneClockIsOnTime` that it does in a batch
  with one clock reading, and `ExpiresInMidBatch` is a batch in which it does not.
- `quant/arbitrage.py:6-9` says that two books never fake an arb where a third lists the draw.
  The frame is the first of the largest listings, so an outcome that only smaller or equal
  listings have is left uncovered: `CoversAllExactly` says when every listed outcome is
  covered, `DrawUncovered` is an arb that leaves the draw open.
- `betting/ledger.py:47-48` says that an asked bet's later row carries the same intent id. The
  row of a placed proposal carries the start of the proposal's id (`betting/runner.py:181`),
  and `MoneyPlane.IntentOf` does the same.
- `agents/harness.py:489-495` promises one result per call of a batch that submits the final
  answer. `FinalBatchValid` shows that this holds exactly when no other call of the batch
  carries the final call's id, `SharedFinalIdBreaksProtocol` that it fails otherwise. The
  results about transcripts are stated run by run: each is valid up to the first such reply to
  that run itself and invalid right after one, whatever its delegates or its caller were told.
  `ValidExactly` draws the conclusion for all the transcripts of a run.
- `quant/devig.py:51-52` leaves a probability below 1e-12 as it is, so the fair probabilities
  are not always ordered as the quotes. `PiecewiseOrderExactly` says exactly when they are,
  `OrderBreaksPastTrillion` is a market in which they are not.
- `quant/backtest.py:100-103` translates a winner into another book's frame. The name matcher
  (`operations/resolution/resolver.py:125-146`) takes the first of two equally long names as the
  shorter one, so the translation need not go back: `TranslateBackExactly` says when it does,
  `Names.OneWayExactly` when the matcher depends on the order, and `OneWayNames` is such a pair.

To check the whole project, run `dafny verify dfyconfig.toml`.

## Model

| member | source | states |
|---|---|---|
| Transcript.ProtocolIsPairing | src/sportsdata_agents/agents/harness.py:532-535 | The left-to-right scan accepts a transcript if and only if every batch of tool calls is directly followed by exactly one result per call, counted with multiplicity, and no result stands anywhere else. |
| Transcript.DefaultCompactor | src/sportsdata_agents/agents/harness.py:186-209 | The loop that drops orphaned results one at a time computes the compacted form: the first two messages, one marker with the number of dropped messages, and the last six from the first that is no tool result. |
| Transcript.CompactedExactly | src/sportsdata_agents/agents/harness.py:186-209 | Up to nine messages nothing is dropped. Of more, the first two are kept, a marker with the number dropped, and the last six from the first that is no tool result. |
| Transcript.CompactionIsSafe | src/sportsdata_agents/agents/harness.py:190-195 | Compacting after a reply keeps the system message, the original task and the reply, leaves at most nine messages, and does not change which tool calls are still owed a result. |
| Transcript.FinalBatchValid | src/sportsdata_agents/agents/harness.py:489-520 | After a final-answer batch the transcript is valid if and only if exactly one call of the batch carries the final call's id. |
| Transcript.SharedFinalIdBreaksProtocol | src/sportsdata_agents/agents/harness.py:489-495 | Appended to any valid transcript, a batch of two calls with one id, one of them the final answer, makes it invalid. |
| Transcript.SharedIdStaysInvalid | src/sportsdata_agents/agents/harness.py:489-530 | A batch in which another call carries the final call's id leaves the transcript invalid whatever came before it and whatever user messages follow. |
| Thrash.IsThrashing | src/sportsdata_agents/agents/harness.py:62-78 | True if and only if the sequence ends in a block of one to three signatures written three times. |
| Thrash.NoCubeAnywhere | src/sportsdata_agents/agents/harness.py:546-551 | A sequence that was never caught thrashing, prefix by prefix, is one in which no block of length one to three stands three times in a row at any position, and conversely. |
| Thrash.StillProgressing | src/sportsdata_agents/agents/harness.py:548-551 | A signature that does not complete a repetition leaves the whole sequence free of them. |
| Thrash.RenamedThrashes | src/sportsdata_agents/agents/harness.py:62-78 | What repeats still does under any names. |
| Thrash.NamedApartThrashes | src/sportsdata_agents/agents/harness.py:62-78 | What repeats under names that tell the things apart repeats itself. |
| AgentRun.SignatureTells | src/sportsdata_agents/agents/harness.py:547 | Requests to tools without a colon in their names have one signature if and only if they ask the same tool with the same arguments. |
| AgentRun.ColonConfuses | src/sportsdata_agents/agents/harness.py:547 | Two requests to different tools, one named with a colon, that have one signature. |
| AgentRun.FullFromSevenTenths | src/sportsdata_agents/agents/harness.py:435-440 | The window counts as full exactly from seven tenths of the context limit on. |
| AgentRun.ClampExactly | src/sportsdata_agents/agents/harness.py:255-259 | Each bound limit is at most the agent's and the workspace's, and is one of them. |
| AgentRun.FinalCallIsFirst | src/sportsdata_agents/agents/harness.py:483-488 | The call that submits the answer is the first of the batch to the final-answer tool. |
| AgentRun.FollowsExactly | src/sportsdata_agents/agents/harness.py:442-555 | What the next transcript adds to the last one and its reply: the format or schema message for an answer that does not fit, the verifier's message after a verdict against it, and for a batch each result and then each triggered skill. |
| RunTrace.ResultsExactly | src/sportsdata_agents/agents/harness.py:552-554 | Each executed call adds its own result under its own id: the tool's text, or what the delegated run handed back. |
| AgentLoop.Complete | src/sportsdata_agents/models/gateway.py:222-268 | With the run's budget spent nothing is asked. Otherwise the gateway is asked once: a spent period cap refuses without a call or a charge, a failure is one uncharged call in the log, and a reply one call charged at its cost, never less than nothing. |
| AgentLoop.Ceiling | src/sportsdata_agents/agents/harness.py:405-414 | At the step ceiling the run stops without asking anything. Below it the clock is read, and the run stops exactly at or past the deadline or else with the budget spent. |
| AgentLoop.Take | src/sportsdata_agents/agents/harness.py:430-440 | The reply joins the transcript; when it filled seven tenths of the window the transcript is compacted, or the run hands off if the agent does not compact. |
| AgentLoop.AnswerInText | src/sportsdata_agents/agents/harness.py:442-481 | A prose answer that does not parse is sent back, with the format message and without asking the verifier, exactly while an attempt is left. Any other is judged: sent back with the verifier's message exactly if the verdict is against it and an attempt is left, and otherwise delivered as it stands with both verdicts. Sent back, it leaves a transcript that is valid, anchored and the next to be sent. |
| AgentLoop.AnswerInChannel | src/sportsdata_agents/agents/harness.py:483-530 | Every other call of the batch is skipped in order and the final one answered last: with the schema error exactly if its arguments do not fit and an attempt is left, and otherwise with acceptance, after which it is judged like a prose answer. |
| AgentLoop.Admit | src/sportsdata_agents/agents/harness.py:538-551 | At the call ceiling nothing is asked and the call refused. Below it the clock is read and the call refused uncounted exactly at or past the deadline; otherwise it is counted, its signature appended, and it is refused exactly when the signatures end in a repeated cycle: whenever the calls, by name and arguments, do, and for names without a colon only then. |
| AgentLoop.ExecuteTool | src/sportsdata_agents/agents/harness.py:565-600 | One tool call leaves itself in the run's books and returns what the tool gave. If its name is a delegate's and its task is not empty, it is that delegate's run of that task, and returns the outcome of that run; for an empty task it returns the error text. |
| AgentLoop.Act | src/sportsdata_agents/agents/harness.py:532-555 | A batch that runs through has executed everything asked for so far, and its transcript is the reply followed by each call's own result in order and the skills disclosed. One that stops has executed the calls before the one it stopped at, and names the limit, the clock or the cycle that stopped it. |
| AgentLoop.DelegateTo | src/sportsdata_agents/agents/runtime.py:63-75 | The delegated run is the target's, for the task of the tool call; it starts from its caller's log, records and spend under the caller's budget and makes no more calls than the widest delegate can; and what it hands back is its own result, stop reason and verdict, or its failure. |
| AgentLoop.PayloadTells | src/sportsdata_agents/agents/runtime.py:76-87 | The caller receives the specialist's name, its answer, its stop reason, its verdict and whether there is data; of a crash only that it failed. |
| AgentLoop.Loop | src/sportsdata_agents/agents/harness.py:351-555 | The loop terminates, makes at most as many completions as its limits allow, reports as its cost the difference it made to the shared budget, and its deadline is its timeout after its first reading of the clock. Its result is true: the reason names a limit that was reached, a last reading of the clock past the deadline or a budget that was spent; the steps are the run's own calls, and one more only if that was refused; the tool calls are those it executed, and one more only if that would have completed a cycle of what was asked for; the output is the delivered answer, marked as parsed exactly if the parser accepts it and verified as the verifier answered last of all, or else the last text given; and the messages are the last transcript with the last reply and what that was given. |
| AgentLoop.Run | src/sportsdata_agents/agents/harness.py:278-349 | Every run, crashed ones included, gets a new id and leaves a lawful book, for the agent and the task it was given, that accounts for every question asked, every provider call, every tool call and every delegated run, and one record with the cost it caused; what it and its delegates reported is true of that book. |
| RunTrace.LawfulRun | src/sportsdata_agents/agents/harness.py:405-555 | In every lawful run, each transcript sent by it or by a run it delegated to starts with its agent's system message and its run's task, is valid up to the first ambiguous reply to that same run and invalid right after one, and extends the transcript that the same run sent before, as compacted; each call was made below the ceiling; and the spend is the run's own calls plus what its delegated runs reported. |
| RunTrace.EveryCallOnTask | src/sportsdata_agents/agents/harness.py:296-302 | No completion of a lawful run, at any depth, is made by another agent or for another task than its run was given: the caller's own, or those in the record of the delegated run. |
| RunTrace.NothingPastDeadline | src/sportsdata_agents/agents/harness.py:405-409 | In a lawful run every completion, its own or a delegated run's, comes right after a reading of the clock that is earlier than the deadline of the run that made it, and every tool executed was admitted by such a reading. |
| AgentRun.ValidExactly | src/sportsdata_agents/agents/harness.py:483-520 | All the transcripts that a run sends are valid if and only if no reply to it, except its last, was an ambiguous final-answer batch. |
| AgentRun.AmbiguityShows | src/sportsdata_agents/agents/harness.py:483-530 | The transcript that follows an ambiguous reply is invalid, compaction included. |
| RunTrace.ExecutedIsProgress | src/sportsdata_agents/agents/harness.py:538-555 | What a lawful run executes is, in order, what its replies asked for, from the first request on, and contains no block of one to three calls three times in a row, calls being the same if they name one tool with the same arguments. |
| RunTrace.NoRunRepeatsItself | src/sportsdata_agents/agents/harness.py:546-551 | The tool calls in the log that a lawful run leaves, by name and arguments, are its own and those of the runs it delegated to, and no run at any depth executed a block of one to three of them three times in a row. |
| AgentRun.AddRun | src/sportsdata_agents/agents/harness.py:381-384 | Appending a delegated run's calls and records, under ids of its own, to its caller's keeps all of this for both, with the caller's own cost unchanged. |
| AgentRun.TeamBound | src/sportsdata_agents/agents/harness.py:254-259 | A one-level team makes at most the root's steps plus, for each of its tool calls, the steps of its longest-running specialist. |
| AgentRun.OvershootIsOneCall | src/sportsdata_agents/models/gateway.py:106-111 | What is spent under a ceiling stays below the ceiling plus the cost of the last call. |
| Team.OpenTeam | src/sportsdata_agents/agents/runtime.py:297-320 | A team opens if and only if the root is loaded, every target is loaded and delegates no further, no target is named twice, and none takes the name of a typed root's final answer; it is then one level deep, in the declared order, with every limit clamped; otherwise the error names a fault that there is. |
| Team.RunTeam | src/sportsdata_agents/agents/runtime.py:276-291 | A root run of such a team ends, keeps the bound on completions and the ceiling but for one call, reports as its cost its own calls plus what its specialists report, makes every call for the agent and the task of its run and before that run's deadline, executes no tool past a deadline, and neither it nor a specialist executes a block of one to three tool calls three times in a row. |
| Delegation.CycleLint.Run | src/sportsdata_agents/agents/loader.py:156-178 | A problem is reported if and only if the graph of loaded agents, without self-edges and dangling targets, has a cycle; every report is a cycle of distinct agents; and every cycle has an edge that closes a reported one. |
| Delegation.CycleLint.Visit | src/sportsdata_agents/agents/loader.py:163-173 | The grey agents are exactly those on the path, a visit turns at least one white agent black and changes no other colour but white, and the reports so far are kept. |
| Delegation.CycleLint.Consider | src/sportsdata_agents/agents/loader.py:164-172 | A grey target always adds a report; otherwise the target of an edge is finished before the agent that points to it. |
| Delegation.SuffixIsCycle | src/sportsdata_agents/agents/loader.py:169 | The path from a grey target on is a cycle of distinct agents, and the reported names are that cycle with its last agent repeated and its first one again. |
| Delegation.TopologicalIsAcyclic | src/sportsdata_agents/agents/loader.py:156-178 | A graph whose agents can be finished in an order in which every edge leads back has no cycle. |
| Delegation.EveryCycleBroken | src/sportsdata_agents/agents/loader.py:156-178 | When every edge of every finished agent leads back or closes a report, every cycle has an edge that closes a report. |
| Delegation.HasCycleExactly | src/sportsdata_agents/agents/loader.py:164-166 | A cycle leads around two or more agents, each loaded and each naming the next, another one, among its targets. |
| Scanner.LeaveOneOut | src/sportsdata_agents/betting/scanner.py:105-115 | Leaving out a smaller element of a list leaves a median at least as large. |
| Scanner.MedianExactly | src/sportsdata_agents/betting/scanner.py:105-115 | The median is the number with at most half of the list below it and at most half above, for an even list halfway between the two middle elements, and no other number is. |
| Scanner.ConsensusIsMedian | src/sportsdata_agents/betting/scanner.py:105-115 | A candidate's consensus is the inverse of the median of the inverse prices of all the other books of the board. |
| Scanner.EdgeExactly | src/sportsdata_agents/betting/scanner.py:118-146 | One plus the edge, times the consensus, times one plus the assumed margin in the value basis, is the price; and prices of at most one, or a negative margin, have no edge. |
| Scanner.BoardExactly | src/sportsdata_agents/betting/scanner.py:168-173 | With enough usable quotes the board holds exactly the last usable quote of each book, and otherwise nothing. |
| Scanner.ScoresFollowOdds | src/sportsdata_agents/betting/scanner.py:176-205 | Two books of one board, each scored against the median of a different field, are ordered by edge exactly as they are by price, in both edge bases. |
| Scanner.CandidatesFromComparison | src/sportsdata_agents/betting/scanner.py:149-205 | The candidates are exactly the permitted books that can be scored, each once, by falling edge and falling price, and in board order where the edges are equal. |
| Scanner.FirstPaysMost | src/sportsdata_agents/betting/runner.py:89 | The candidate acted on pays at least as much as every permitted book of the board. |
| Scanner.LastQuoteStands | src/sportsdata_agents/betting/scanner.py:173 | Where a comparison lists a book twice the board holds its last quote. |
| Policy.PlacesExactly | src/sportsdata_agents/betting/policy.py:247-323 | Money moves unattended if and only if the bet clears every test, every budget has room, the book is on auto with a proven or admitted path, and it is not quiet hours; a bet is skipped if and only if it fails a test or a budget, whatever the mode, and recorded on paper if and only if it is not skipped and the book is on paper. A book's own mode, off included, goes before the default. |
| Policy.SizeExactly | src/sportsdata_agents/betting/policy.py:327-339 | The stake is the flat one, or the one that is to the bankroll, scaled by the Kelly fraction, as the edge is to the net odds; at most the maximum, never below zero, and zero without net odds or bankroll. |
| Policy.StakeFits | src/sportsdata_agents/betting/policy.py:280-297 | Whatever is not skipped has a positive stake, at most the sized one, that fits the daily cap and the exposure limit, and is trimmed only to use one of them up. |
| Policy.ApprovalIsNoBypass | src/sportsdata_agents/betting/runner.py:195-210 | The placing copy of the policy turns an ask into a placement at the same stake and changes no size, floor, cap or refusal that those make. |
| Policy.QuietAroundTheClock | src/sportsdata_agents/betting/policy.py:343-351 | A window that crosses midnight covers exactly the hours from its start around to its end. |
| Policy.DriftExactly | src/sportsdata_agents/betting/drift.py:42-64 | The gate lets a re-price through if and only if both prices are usable and the new one is not below the quoted one, or is so by no more than the tolerance. |
| Policy.EdgeAfterDrift | src/sportsdata_agents/betting/drift.py:42-64 | A bet that cleared the floor and the gate keeps, at the new price and against the same field, an edge of (1 + floor)(1 - tolerance) - 1 in both bases. |
| Ledger.ExposureGrowth | src/sportsdata_agents/betting/ledger.py:104-109 | One more row raises the open exposure by at most what it places. |
| Ledger.ExposureCounts | src/sportsdata_agents/betting/ledger.py:104-109 | The open exposure is the sum of the stakes placed under ids that no row refuses and no receipt settles. |
| Ledger.ExposureIsAtRisk | src/sportsdata_agents/betting/ledger.py:104-109 | The open exposure never exceeds what is placed and unsettled, and equals it if and only if no refused row carries the id of an open placement. |
| Ledger.RefusalHidesPlacement | src/sportsdata_agents/betting/ledger.py:107 | A ledger with a stake of ten placed and open whose open exposure is zero, because a refused row carries the same id. |
| MoneyPlane.RowKeepsCaps | src/sportsdata_agents/betting/execute.py:123-149 | The row of any intent, under any policy with the same caps, keeps every day's stake and count and the open exposure within them. |
| MoneyPlane.CapsHold | src/sportsdata_agents/betting/policy.py:286-297 | Over any run of scans, approvals, rejections, listings and placement batches, each intent at its own clock reading, every UTC day keeps its placed stake within the daily cap and its bets within the count, and the open exposure never passes its limit. |
| MoneyPlane.OnePlacementPerProposal | src/sportsdata_agents/betting/runner.py:165-192 | Over any interleaving of steps, every proposal causes at most one placement call. |
| MoneyPlane.PlacedOnlyWhenApproved | src/sportsdata_agents/betting/approvals.py:192-205 | A proposal is sent to a bookmaker only in a placement batch that finds it unexpired, and only after an earlier approval of it while it was pending and unexpired. |
| MoneyPlane.ApprovedFromPending | src/sportsdata_agents/betting/approvals.py:168-182 | Whatever is approved was approved at some earlier step at which it was pending and unexpired. |
| MoneyPlane.PendingIsNeverReentered | src/sportsdata_agents/betting/approvals.py:150-213 | A proposal that is pending now has been pending ever since it was made, although a rejection may overwrite any other state. |
| Expiry.NeverExpiredExactly | src/sportsdata_agents/betting/runner.py:165-191 | Over any run, no proposal is sent to a bookmaker at or past its expiry if and only if every batch, for each proposal that it sends, reads a clock before that proposal's expiry. |
| Expiry.OneClockIsOnTime | src/sportsdata_agents/betting/approvals.py:192-205 | A batch whose intents read no later time than its selection sends nothing expired. |
| Expiry.ExpiresInMidBatch | src/sportsdata_agents/betting/runner.py:165-187 | A proposal that expires at 5, selected at 0 and sent and accepted at 10. |
| MoneyPlane.PlacedMeansAccepted | src/sportsdata_agents/betting/execute.py:201-224 | An intent leaves a placed row if and only if its single placement call was made and accepted, and no intent makes more than one call. |
| Clearance.SentExactly | src/sportsdata_agents/betting/execute.py:164-205 | An intent's single placement call is made if and only if the decision is to place, a bet that can be re-priced has a reader and a readable price within the tolerance, and a coupon that the book can check was found acceptable; it carries the request's own stake. |
| Clearance.RowExactly | src/sportsdata_agents/betting/execute.py:123-224 | The row of an intent, field by field: a decision to place that is not cleared or not accepted leaves a refusal at the decided stake and at the price read, or the scanned one if none was. |
| Clearance.EveryCallCleared | src/sportsdata_agents/betting/execute.py:160-205 | Over any run, every placement call comes from a scan's candidate or from an approved, unexpired proposal, on its own terms, and was cleared on them. |
| Clearance.ApproveExactly | src/sportsdata_agents/betting/approvals.py:168-182 | An approval changes only the one proposal it names, only if that is pending, and marks it expired from its expiry on. |
| Clearance.ScanExactly | src/sportsdata_agents/betting/runner.py:84-147 | A scan leaves a row for its best candidate and files a proposal exactly on an ask with a store: pending, on the candidate's terms, at the decided stake, with a request at the policy's size. |
| MoneyPlane.PlacedEdge | src/sportsdata_agents/betting/execute.py:168-185 | The row of one placed bet, scored against a field, is at a price that keeps over that field the edge which the floor and the tolerance leave. |
| PlacedEdges.EveryPlacementKeepsItsEdge | src/sportsdata_agents/betting/execute.py:168-185 | Over any run whose scans score their candidates, every row placed during it, at once or after approval, is a bet on the candidate of an earlier scan, at a price that keeps over that scan's field the edge which the floor and the tolerance leave. |
| PlacedEdges.CandidatesAreScored | src/sportsdata_agents/betting/scanner.py:176-205 | Every candidate that a comparison yields carries the edge of its own price over its own field. |
| OpenRisk.RiskIsCapped | src/sportsdata_agents/betting/ledger.py:104-109 | Over any run with new ids the open exposure is exactly what is placed and not settled, so the limit on it limits that. |
| SharedPrefix.HidingIsReached | src/sportsdata_agents/betting/runner.py:181 | A run from the empty ledger with differently named proposals - two scans, two approvals, one batch - that places one, has the other refused, and ends with a refusal hiding an open placement. |
| PayloadGap.ExcessIsOneStake | src/sportsdata_agents/betting/runner.py:91-97 | Over any run in which nothing is settled, and for every day on which the two agreed at the start, what bookmakers accepted exceeds what the ledger recorded by at most one maximal stake and never falls short of it. |
| PayloadGap.UntrimmedAgree | src/sportsdata_agents/betting/policy.py:280-297 | The payload stake of a placed bet is the recorded one if and only if the sized stake fitted both budgets. |
| PayloadGap.BetsAreAcceptances | src/sportsdata_agents/betting/ledger.py:101-102 | Over any run and for every day, the bets the ledger counts are the placement calls bookmakers accepted. |
| Desk.Store.FindOne | src/sportsdata_agents/betting/approvals.py:146-148 | Finds the only proposal whose id starts with the prefix, and none if there are several. |
| Desk.Store.Approve | src/sportsdata_agents/betting/approvals.py:168-182 | Approves exactly the one matching pending, unexpired proposal, marks an expired one so, and changes nothing else. |
| Desk.Store.Reject | src/sportsdata_agents/betting/approvals.py:184-190 | Rejects the one matching proposal whatever its state, and no other. |
| Desk.Store.PendingNow | src/sportsdata_agents/betting/approvals.py:150-163 | Returns the pending, unexpired proposals in order and marks exactly the pending, expired ones. |
| Desk.Store.ApprovedNow | src/sportsdata_agents/betting/approvals.py:192-205 | Returns the approved, unexpired proposals in order and marks exactly the approved, expired ones. |
| Desk.Store.Record | src/sportsdata_agents/betting/approvals.py:207-213 | Gives the first proposal with the id its outcome and touches no other. |
| Desk.RunIntent | src/sportsdata_agents/betting/execute.py:108-224 | Whatever happens, exactly one row is appended and at most one placement call is made, both as the decision, the re-price, the check and the answer determine them, and the caller is told what the row says. |
| Desk.PlaceApprovedBets | src/sportsdata_agents/betting/runner.py:150-192 | Ledger, store and bookmaker end up as after the state machine's placement step, each intent decided at its own clock reading, with one outcome per selected proposal. |
| Desk.ScanFixture | src/sportsdata_agents/betting/runner.py:60-147 | The candidates are complete and best first, and ledger, store and bookmaker end up as after the state machine's scan step on the best of them. |
| Devig.RemoveInvertsMarked | src/sportsdata_agents/quant/devig.py:47-60 | Loading the documented margin onto a fair probability and removing it gives the probability back if and only if the mark is at least 1e-12 or carries no margin. |
| Devig.MarkedInvertsRemove | src/sportsdata_agents/quant/devig.py:47-60 | Removing the margin from a mark of at least 1e-12 and loading it again gives the mark back if and only if it is not below the margin floor. |
| Devig.RemoveIsMonotoneAndContinuous | src/sportsdata_agents/quant/devig.py:47-60 | From 1e-12 on the removal is non-decreasing, strictly where positive, and nowhere grows faster than its steepest piece, at the two breaks included. |
| Devig.RemoveIsBounded | src/sportsdata_agents/quant/devig.py:47-60 | The removal answers exactly for probabilities, with a value between zero and the mark. |
| Devig.Pieces | src/sportsdata_agents/quant/devig.py:53-60 | The three pieces are lines that agree at both breaks. |
| FairShares.RemoveExactly | src/sportsdata_agents/quant/devig.py:47-60 | What is left of a probability, piece by piece, as an equation in the curve's margins and breaks. |
| FairShares.MarkedExactly | src/sportsdata_agents/quant/devig.py:8-17 | What the documented curve loads onto a probability, piece by piece, as an equation. |
| Devig.MarksStayProbabilities | src/sportsdata_agents/quant/devig.py:13-14 | Every probability has a mark of at most 1 if and only if the curve has no margin floor. |
| Devig.ProportionalIsFair | src/sportsdata_agents/quant/devig.py:63-69 | Proportional removal answers if and only if the market is full and quoted from 1.01, with positive probabilities that sum to 1 and are ordered as the quotes. |
| Devig.PiecewiseIsFair | src/sportsdata_agents/quant/devig.py:72-88 | The curve answers for exactly the same markets, never leaves its own domain, and returns positive probabilities that sum to 1, by way of the proportional fallback if need be. |
| FairShares.PiecewiseExactly | src/sportsdata_agents/quant/devig.py:72-88 | If the curve leaves something of every quote the probabilities are in proportion to what it leaves, and otherwise to the inverse quotes. |
| FairShares.ProportionalExactly | src/sportsdata_agents/quant/devig.py:63-69 | Proportional probabilities are in proportion to the inverse quotes. |
| FairShares.AnswersExactly | src/sportsdata_agents/quant/devig.py:72-83 | Which markets are refused and why: fewer than two selections, a quote below 1.01, or inverses that sum to at most one; the two methods refuse the same. |
| Devig.PiecewiseOrderExactly | src/sportsdata_agents/quant/devig.py:72-88 | The probabilities of a full market are ordered as its quotes if and only if the curve leaves nothing of some quote, so that the proportional fallback runs, or leaves more of every quote up to 1e12 than the inverse of any longer one. |
| Devig.FloorsExactly | src/sportsdata_agents/quant/devig.py:51-60 | A curve leaves nothing of a probability exactly when that is no more than its margin floor, and never less than nothing. |
| Devig.PiecewiseKeepsOrder | src/sportsdata_agents/quant/devig.py:84-88 | For quotes up to 1e12 the probabilities are ordered as the quotes, in both directions, whatever the curve. |
| Devig.OrderBreaksPastTrillion | src/sportsdata_agents/quant/devig.py:51-55 | A full market with a quote above 1e12 in which the longer quote gets the larger probability. |
| Arbitrage.Boards | src/sportsdata_agents/quant/arbitrage.py:100-113 | The rows are split into one board per line; each holds exactly the usable, translatable rows of its line, in order. |
| ArbPayoff.BoardExactly | src/sportsdata_agents/quant/arbitrage.py:100-113 | A row enters the board of its line, and only that, exactly with a price of at least 1.01 on a translatable selection. |
| Arbitrage.Frame | src/sportsdata_agents/quant/arbitrage.py:117-126 | The frame is the first of the largest sets of outcomes that one book lists outright. |
| Arbitrage.FrameIsWidest | src/sportsdata_agents/quant/arbitrage.py:117-126 | Some book lists exactly the frame and no book lists more outcomes. |
| ArbPayoff.FrameIsFirst | src/sportsdata_agents/quant/arbitrage.py:117-122 | The frame is the listing of one book; every book that quoted outright before it lists fewer outcomes, and every other no more. |
| Arbitrage.TwoSides | src/sportsdata_agents/quant/arbitrage.py:130-140 | On a board without totals a draw-free frame of two outcomes is the two sides, so a quote against one side has exactly one outcome to fold into. |
| Arbitrage.BestPrices | src/sportsdata_agents/quant/arbitrage.py:127-142 | For each outcome of the frame that some quote covers, the first of the best-priced quotes that cover it. |
| ArbPayoff.CoversExactly | src/sportsdata_agents/quant/arbitrage.py:130-140 | A quote on an outcome of the frame is counted for it, and one against a side for the other of two sides and for nothing in a larger frame. |
| ArbPayoff.BestIsFirst | src/sportsdata_agents/quant/arbitrage.py:140-142 | The leg of an outcome is the first quote counted for it at the best price. |
| ArbPayoff.ArbExactly | src/sportsdata_agents/quant/arbitrage.py:121-150 | There is an arb if and only if the frame has two outcomes or more, each has a quote, the best ones are not all from one book, and their inverses leave the margin asked for. |
| Arbitrage.ArbIsCheapest | src/sportsdata_agents/quant/arbitrage.py:127-147 | No way to pick one admissible quote per outcome has a smaller inverse sum than the reported one. |
| Arbitrage.ArbIsComplete | src/sportsdata_agents/quant/arbitrage.py:143-146 | A reported arb is on one line and covers its whole frame, once each, from at least two books; no single book lists more outcomes than it has legs. |
| Arbitrage.CoversAllExactly | src/sportsdata_agents/quant/arbitrage.py:116-126 | A reported arb covers every outcome that any book lists if and only if one single book lists all of them. |
| Arbitrage.DrawUncovered | src/sportsdata_agents/quant/arbitrage.py:122-126 | One book lists home and away, the other home and the draw: an arb is reported that does not cover the draw. |
| Arbitrage.ArbPaysEqually | src/sportsdata_agents/quant/arbitrage.py:147-166 | The stake shares sum to 1, and every outcome pays 1 over the inverse sum, which exceeds the stake if and only if the margin is positive. |
| ArbPayoff.ArbReturns | src/sportsdata_agents/quant/arbitrage.py:147-166 | Whatever outcome of the frame is the result, exactly one leg pays, a quote against a side paying whenever that side does not win, and the stake as split returns one over the inverse sum. |
| Arbitrage.ArbsForFixture | src/sportsdata_agents/quant/arbitrage.py:91-177 | Every line whose board has an arb is reported, once, and nothing else is. |
| Arbitrage.BackLayBranches | src/sportsdata_agents/quant/arbitrage.py:624-627 | One unit backed and the lay that evens the branches return the back price over the lay price, less the commission in the losing branch, so that is the worse one if and only if there is a commission, and it is a profit if and only if the back price after commission beats the lay price. |
| Schedule.DueJobs | src/sportsdata_agents/operations/scheduler.py:237-249 | The jobs returned are exactly the due ones, in order, without operator jobs on other installs. |
| Schedule.SlotIsLatest | src/sportsdata_agents/operations/scheduler.py:225-234 | The computed slot is the latest instant not after the clock at which the job is to run. |
| Schedule.MatchesExactly | src/sportsdata_agents/operations/scheduler.py:220-234 | A job runs at the whole multiples of its interval, or at its hour and minute, on the minute, every day or on its weekday. |
| Schedule.WeekdayExactly | src/sportsdata_agents/operations/scheduler.py:225-234 | Weekdays go around day by day from a Thursday. |
| Schedule.DueExactly | src/sportsdata_agents/operations/scheduler.py:220-234 | A job is due at a tick if and only if one of its instants lies in the tick's window. |
| Schedule.EverySlotFiresOnce | src/sportsdata_agents/operations/scheduler.py:220-234 | Over contiguous ticks every instant of a job in their span lies in exactly one tick, and the job is due at it. |
| Schedule.FiringsAreSlots | src/sportsdata_agents/operations/scheduler.py:220-234 | Over contiguous ticks a job fires at most as often as it has instants in their span, counted as a set, and exactly as often when no tick looks back further than the job's step. |
| Schedule.InstantsAreIndices | src/sportsdata_agents/operations/scheduler.py:220-234 | The instants of a job between two times are as many as the difference of its step counts. |
| RateLimit.RateLimiter.Check | src/sportsdata_agents/gateway/app.py:198-204 | With a clock that does not run backwards, a request is accepted if and only if the full history of its key has room in the last minute; a refusal stores nothing and no other key changes. |
| RateLimit.RecentExactly | src/sportsdata_agents/gateway/app.py:200-201 | The hits that count are those of the last sixty seconds. |
| RateLimit.RequestKeepsStep | src/sportsdata_agents/gateway/app.py:200-204 | A key's pruned list and full history count the same recent hits, before and after any request. |
| RateLimit.AcceptedIsSpaced | src/sportsdata_agents/gateway/app.py:193-204 | However requests come in, no span shorter than a minute holds more accepted ones than the limit. |
| Fantasy.Moves | src/sportsdata_agents/fantasy/verify.py:142-161 | The players to come in and to go out, from either platform's vocabulary. |
| Fantasy.MovesExactly | src/sportsdata_agents/fantasy/verify.py:142-161 | A player comes in by an element in or an item that adds the player, and goes out by an element out or an item that drops the player. |
| Fantasy.VerifyTransfers | src/sportsdata_agents/fantasy/verify.py:164-208 | The check passes if and only if the squad afterwards is the squad before without the departures and with the arrivals, the two are disjoint, and the size moved by their difference, on FPL not at all; the mismatches are exactly the players that did not come, those that did not go, the sets of those who came or went unasked, and the size rule that failed. |
| Fantasy.SquadIs | src/sportsdata_agents/fantasy/verify.py:178-192 | The four membership tests are together the equation and the disjointness. |
| Fantasy.SizeRule | src/sportsdata_agents/fantasy/verify.py:197-204 | Given the equation, the size rule holds if and only if as many arrivals were there already as departures were not, and on FPL as many come as go. |
| Fantasy.LandedExactly | src/sportsdata_agents/fantasy/verify.py:178-204 | The check in full: the equation, nobody both in and out, as many arrivals there already as departures not there, and on FPL as many in as out. |
| Fantasy.SensibleRequestLands | src/sportsdata_agents/fantasy/verify.py:164-208 | For arrivals not in the squad and departures in it, the check is the equation, and on FPL as many in as out. |
| Fantasy.FailedReadBack | src/sportsdata_agents/fantasy/execute.py:147-159 | An empty read-back passes if and only if nothing was to come in and exactly the squad read before was to go out, and on FPL only if that was empty. |
| Fantasy.WriteAndVerify | src/sportsdata_agents/fantasy/execute.py:102-144 | One write if the request can be built and none otherwise, never a second; acted if and only if it was answered and confirmed; the proposal records which. |
| Fantasy.ConfirmedExactly | src/sportsdata_agents/fantasy/execute.py:102-159 | When a write counts: buildable, answered, and confirmed by the team read back, a failed read being an empty team. |
| Fantasy.ProceedsExactly | src/sportsdata_agents/fantasy/execute.py:69-99 | A write is let through by the policy alone where there is no proposal, and otherwise by an approval. |
| Fantasy.RunIntent | src/sportsdata_agents/fantasy/execute.py:69-99 | No write without the policy's or the owner's consent and at most one with it; a transfer that acted was sent exactly once and satisfies the equation on the squads read; an unanswered question leaves one new pending proposal. |
| Backtest.FixtureByIdExactly | src/sportsdata_agents/quant/backtest.py:51-55 | The table by id alone holds a fixture if and only if every event row of the id, under whatever provider, names it. |
| Backtest.FixtureByIdIgnoresOrder | src/sportsdata_agents/quant/backtest.py:51-55 | That table does not depend on the order of the rows. |
| Backtest.ResultByIdExactly | src/sportsdata_agents/quant/backtest.py:66-74 | The table by id alone holds a result row if and only if it is the newest of its id and all rows of the id come from one provider. |
| Backtest.PoisonIgnoresOrder | src/sportsdata_agents/quant/backtest.py:68-74 | Whether an id is unusable does not depend on the order in which results settled. |
| Backtest.SettlementMaps | src/sportsdata_agents/quant/backtest.py:45-81 | The five tables that the two loops fill hold what the folds over the rows say. |
| Backtest.HitIsSound | src/sportsdata_agents/quant/backtest.py:241-251 | A prediction settles by its own event's row, by the newest row of an id that only one provider uses, or by a row of its own fixture, and by nothing else. |
| Replay.HitExactly | src/sportsdata_agents/quant/backtest.py:241-251 | A prediction settles by the newest row of its own event; failing that by the newest row of its id, if one provider has them all; failing that by the newest row of its fixture; and failing that by none. |
| Replay.FixtureExactly | src/sportsdata_agents/quant/backtest.py:48-55 | The fixture of an event is that of its last row, and failing that the one that all rows of its id name. |
| Replay.WinnerExactly | src/sportsdata_agents/quant/backtest.py:244-267 | The winner is the row's own for a direct hit; through the fixture it is so too unless it names a side, which is translated. |
| Replay.TranslateExactly | src/sportsdata_agents/quant/backtest.py:100-115 | A draw is a draw everywhere; a side is kept or exchanged exactly if the listings match in that order only. |
| Backtest.TranslateBackExactly | src/sportsdata_agents/quant/backtest.py:100-115 | A translated side, translated back with the names exchanged, is the side again if and only if it was a draw or the names align that way around as they did the other. |
| Backtest.SymmetricNamesAlignBack | src/sportsdata_agents/quant/backtest.py:109-115 | They do when the matcher answers the same both ways on the sides of the two names. |
| Backtest.OneWayNames | src/sportsdata_agents/quant/backtest.py:109-115 | Two event names between which a home winner can be translated one way and not back. |
| Names.OneWayExactly | src/sportsdata_agents/operations/resolution/resolver.py:125-146 | Whether two names are one team depends on which comes first if and only if they have equally many tokens and one variant, and only one of them has a partner for its every token in the other. |
| Names.MartinIsMartinez | src/sportsdata_agents/operations/resolution/resolver.py:80-94 | Two names that match in one order and not in the other, with partners found by equality and prefix. |
| Names.SideOkExactly | src/sportsdata_agents/operations/resolution/resolver.py:125-146 | A name matches one that is no shorter if both are of one variant, and it is the other's initials or each of its tokens has a partner there. |
| Names.TokenMatchExactly | src/sportsdata_agents/operations/resolution/resolver.py:80-94 | Tokens match, in either order, if they are the same, one is the other's initial, or one of three letters or more abbreviates the other. |
| Backtest.EntryIsPrevailing | src/sportsdata_agents/quant/backtest.py:272-275 | The entry price is the last that stood when the prediction was made; it is later than the prediction if and only if every price is, and is then the first. |
| Replay.EntryExactly | src/sportsdata_agents/quant/backtest.py:272-275 | Among all prices the entry is the last on the prediction's selection that stood when it was made, and the first on it if none did or the time is not known. |
| Replay.SeriesExactly | src/sportsdata_agents/quant/backtest.py:225-238 | The series of a prediction is every price on its event, market and selection, at the book asked for, in order. |
| Replay.VerdictExactly | src/sportsdata_agents/quant/backtest.py:268-293 | Without a result a prediction is skipped, then with too small an edge at the entry price; any other is a unit bet at that price, won exactly if its selection is the winner, with the last price as its close. |
| Replay.NoPriceExactly | src/sportsdata_agents/quant/backtest.py:237-240 | A prediction is skipped for want of a price exactly if no price is on its selection. |
| Backtest.RunBacktest | src/sportsdata_agents/quant/backtest.py:222-307 | The bets and the skips are those of each prediction's own verdict, in order, and every prediction is counted exactly once. |
| Backtest.ProfitIsReturnLessStakes | src/sportsdata_agents/quant/backtest.py:291-292 | On flat unit stakes the profit is what the winners returned less one unit a bet. |

## Left out

- Language-model, MCP, HTTP and SQL calls, notifications, recorders, file formats and signatures: their answers are parameters, or nothing.
- The bookmakers' payloads and response readers: a payload is its stake, an answer is accepted or not, with or without a settlement.
- Names: how a name is split into sides, cut into tokens and searched for variant markers and initials is arbitrary; elsewhere than in `Names` a match is its outcome.
- Floating-point rounding and the rounding of reported figures: all arithmetic is over real numbers.
- Time zones and daylight saving: the scheduler's wall clock and its timestamps are one clock.
- Interleaved bets: intents are decided one at a time; two processes over one ledger or one store, and a crash between a placement and the record of its outcome, are not modelled.
- Proposal ids: new proposals have new ids, and the results on payload stakes and on the exposure need new intent ids; the twelve-character prefix that becomes the intent id is modelled, its uniqueness is an assumption of those results.
- The policy's warnings and the texts of reasons, reports and summaries.
- A completion is one call: the gateway's fallback model, its retries and its metering are inside it.
- The evidence that the verifier is given, the per-conversation tool scope, artifacts, the per-provider poll budget and the choice of model tier.
- The arguments of a tool call are a text with the trimmed `task` beside it; parsing them is not modelled.
- AgentLoop.DelegateTo: of the specialist's structured data the payload keeps only whether there is any.
- Transcript.DefaultCompactor: six kept messages, and `Thrash.IsThrashing` three repetitions of up to three signatures, as every caller has them.
- Arbitrage.ArbsForFixture: neither the order of the legs nor the final sort by margin is modelled; the arbs are in the order of the boards.
- Arbitrage.BackLayBranches: the arithmetic of the two branches only, not the freshness and coverage filters around it.
- Devig.PiecewiseIsFair: a market is a sequence of quotes; the names of the selections are carried along unchanged and are not modelled.
- Fantasy.VerifyTransfers: the mismatches are a set of findings; their wording and sorting are not modelled.
- Team.OpenTeam: the only tools of an agent are its delegates; clashes with its other tools are not modelled.
- The lineup check, chips, and `execute_approved` of the fantasy plane: the same store and the same write as here, in a loop; a platform without an adapter raises before anything happens.
- Backtest.RunBacktest: the benchmark book's closing price, its margin removal and the summary statistics but for the profit.
- The failure counter and triage cool-down of the scheduler, its lock files and the pacing ladder: each is settled by reading one branch.
- The exchange premium scan, the other wings of `quant/` and the ingestion and resolution services.
