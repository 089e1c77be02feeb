/** The message list of one agent run (`agents/harness.py`): the pairing of tool calls
    with tool results, and the compaction that must not break it. */
module Transcript {
  import opened Wrappers

  datatype StopReason =
    | Done | MaxSteps | MaxToolCalls | BudgetExhausted | Timeout | NoProgress | ContextExhausted

  /** Where a message's text comes from. `Prose` is the task and whatever a model or a
      tool wrote; the other cases are the texts that the harness writes itself. */
  datatype Body =
    | Prose(text: string)
    | Skill(name: string)
    | Compacted(dropped: nat)
    | FormatFeedback
    | VerifierFeedback
    | Skipped
    | SchemaError
    | Accepted
    | Failure
    | Summary(agent: string, answer: string, stop: StopReason, verified: Option<bool>, structured: bool)

  datatype Message =
    | System(text: string)
    | User(body: Body)
    | Assistant(text: string, calls: seq<string>)  // the ids of its tool calls, in order
    | Tool(call: string, body: Body)

  /** What a prefix of a transcript still owes: the calls of the last batch that have no
      result yet. */
  datatype Pairing = Broken | Owing(ids: multiset<string>)

  function After(p: Pairing, m: Message): Pairing {
    match p
    case Broken => Broken
    case Owing(ids) =>
      match m
      case Tool(id, _) => if id in ids then Owing(ids - multiset{id}) else Broken
      case Assistant(_, calls) => if |ids| == 0 then Owing(multiset(calls)) else Broken
      case _ => if |ids| == 0 then p else Broken
  }

  function Scan(p: Pairing, ms: seq<Message>): Pairing
    decreases |ms|
  {
    if ms == [] then p else Scan(After(p, ms[0]), ms[1..])
  }

  const NOTHING_OWED := Owing(multiset{})

  predicate ProtocolValid(ms: seq<Message>) {
    Scan(NOTHING_OWED, ms) == NOTHING_OWED
  }

  // ----- the same, message by message -----

  function BatchSize(m: Message): nat {
    if m.Assistant? then |m.calls| else 0
  }

  function ToolIds(ms: seq<Message>): seq<string>
    requires forall m :: m in ms ==> m.Tool?
  {
    seq(|ms|, i requires 0 <= i < |ms| => ms[i].call)
  }

  /** The messages right after position `i` are the results of its calls, one for each. */
  ghost predicate Answered(ms: seq<Message>, i: nat)
    requires i < |ms|
  {
    var n := BatchSize(ms[i]);
    n > 0 ==>
      && i + 1 + n <= |ms|
      && (forall m :: m in ms[i + 1..i + 1 + n] ==> m.Tool?)
      && multiset(ToolIds(ms[i + 1..i + 1 + n])) == multiset(ms[i].calls)
  }

  ghost predicate Owned(ms: seq<Message>, j: nat)
    requires j < |ms|
  {
    ms[j].Tool? ==> exists i :: 0 <= i < j <= i + BatchSize(ms[i])
  }

  /** Every batch of tool calls is directly followed by exactly one result per call, and
      no result stands anywhere else. */
  ghost predicate Paired(ms: seq<Message>) {
    && (forall i :: 0 <= i < |ms| ==> Answered(ms, i))
    && (forall j :: 0 <= j < |ms| ==> Owned(ms, j))
  }

  lemma {:induction false} ScanConcat(p: Pairing, a: seq<Message>, b: seq<Message>)
    ensures Scan(p, a + b) == Scan(Scan(p, a), b)
    decreases |a|
  {
    if a == [] {
      assert a + b == b;
    } else {
      assert (a + b)[1..] == a[1..] + b;
      ScanConcat(After(p, a[0]), a[1..], b);
    }
  }

  lemma ScanAppend(p: Pairing, ms: seq<Message>, m: Message)
    ensures Scan(p, ms + [m]) == After(Scan(p, ms), m)
  {
    ScanConcat(p, ms, [m]);
    assert [m][1..] == [];
  }

  lemma {:induction false} BrokenStays(ms: seq<Message>)
    ensures Scan(Broken, ms) == Broken
  {
    if ms != [] {
      BrokenStays(ms[1..]);
    }
  }

  /** A scan that owes `ids` and ends owing nothing starts with their results. */
  lemma {:induction false} OwedComesFirst(ids: multiset<string>, ms: seq<Message>)
    requires Scan(Owing(ids), ms) == NOTHING_OWED
    ensures |ids| <= |ms| && (forall m :: m in ms[..|ids|] ==> m.Tool?)
    ensures multiset(ToolIds(ms[..|ids|])) == ids
    ensures Scan(NOTHING_OWED, ms[|ids|..]) == NOTHING_OWED
    decreases |ms|
  {
    if |ids| > 0 {
      BrokenStays(ms[1..]);
      var rest := ids - multiset{ms[0].call};
      assert |rest| == |ids| - 1;
      OwedComesFirst(rest, ms[1..]);
      SplitFirstResult(ms, |ids|);
      assert multiset([ms[0].call]) + rest == ids;
    } else {
      assert ms[..0] == [] && ms[0..] == ms;
    }
  }

  lemma SplitFirstResult(ms: seq<Message>, n: nat)
    requires 0 < n <= |ms| && ms[0].Tool? && forall m :: m in ms[1..][..n - 1] ==> m.Tool?
    ensures ms[n..] == ms[1..][n - 1..] && forall m :: m in ms[..n] ==> m.Tool?
    ensures multiset(ToolIds(ms[..n])) == multiset([ms[0].call]) + multiset(ToolIds(ms[1..][..n - 1]))
  {
    assert ms[..n] == [ms[0]] + ms[1..][..n - 1];
    assert ToolIds(ms[..n]) == [ms[0].call] + ToolIds(ms[1..][..n - 1]);
  }

  /** And conversely: a batch's results in any order settle what it owes. */
  lemma {:induction false} ResultsSettle(ids: multiset<string>, ms: seq<Message>)
    requires forall m :: m in ms ==> m.Tool?
    requires multiset(ToolIds(ms)) == ids
    ensures Scan(Owing(ids), ms) == NOTHING_OWED
    decreases |ms|
  {
    if ms != [] {
      var id := ms[0].call;
      assert ToolIds(ms) == [id] + ToolIds(ms[1..]);
      ResultsSettle(ids - multiset{id}, ms[1..]);
    }
  }

  /** The scan accepts exactly the transcripts in which every batch is answered in place
      and no tool result is orphaned. */
  lemma {:induction false} ProtocolIsPairing(ms: seq<Message>)
    ensures ProtocolValid(ms) <==> Paired(ms)
    decreases |ms|
  {
    if ms != [] {
      var n := BatchSize(ms[0]);
      if ProtocolValid(ms) {
        BrokenStays(ms[1..]);
        FirstBatch(ms);
        ProtocolIsPairing(ms[n + 1..]);
        PairedFromTail(ms);
      }
      if Paired(ms) {
        TailPaired(ms);
        ProtocolIsPairing(ms[n + 1..]);
        FirstBatchScans(ms);
      }
    }
  }

  lemma FirstBatch(ms: seq<Message>)
    requires ms != [] && ProtocolValid(ms)
    ensures BatchFirst(ms) && ProtocolValid(ms[BatchSize(ms[0]) + 1..])
  {
    BrokenStays(ms[1..]);
    var n := BatchSize(ms[0]);
    var ids := After(NOTHING_OWED, ms[0]).ids;
    OwedComesFirst(ids, ms[1..]);
    assert |ids| == n;
    assert ms[1..][..n] == ms[1..1 + n];
    assert ms[1..][n..] == ms[n + 1..];
  }

  lemma AnsweredShift(ms: seq<Message>, off: nat, k: nat)
    requires off + k < |ms|
    ensures Answered(ms, off + k) <==> Answered(ms[off..], k)
  {
    var n := BatchSize(ms[off + k]);
    if off + k + 1 + n <= |ms| {
      assert ms[off..][k + 1..k + 1 + n] == ms[off + k + 1..off + k + 1 + n];
    }
  }

  ghost predicate BatchFirst(ms: seq<Message>) {
    ms != [] && !ms[0].Tool? && BatchSize(ms[0]) + 1 <= |ms| && Answered(ms, 0)
  }

  lemma ResultOfFirst(ms: seq<Message>, i: nat)
    requires BatchFirst(ms) && 0 < i <= BatchSize(ms[0])
    ensures ms[i].Tool? && Answered(ms, i) && Owned(ms, i)
  {
    var window := ms[1..1 + BatchSize(ms[0])];
    assert window[i - 1] == ms[i];
    assert ms[i] in window;
    assert 0 <= 0 < i <= 0 + BatchSize(ms[0]);
  }

  lemma OwnedShift(ms: seq<Message>, i: nat)
    requires BatchFirst(ms) && BatchSize(ms[0]) < i < |ms|
    ensures Owned(ms, i) <==> Owned(ms[BatchSize(ms[0]) + 1..], i - BatchSize(ms[0]) - 1)
  {
    var n := BatchSize(ms[0]);
    var rest := ms[n + 1..];
    var k := i - n - 1;
    if ms[i].Tool? && Owned(ms, i) {
      var o :| 0 <= o < i <= o + BatchSize(ms[o]);
      if 0 < o <= n {
        ResultOfFirst(ms, o);
      }
      assert ms[o] == rest[o - n - 1];
    }
    if ms[i].Tool? && Owned(rest, k) {
      var o :| 0 <= o < k <= o + BatchSize(rest[o]);
      assert ms[o + n + 1] == rest[o];
    }
  }

  lemma BatchFits(ms: seq<Message>)
    requires BatchFirst(ms)
    ensures BatchSize(ms[0]) + 1 <= |ms| && Answered(ms, 0) && Owned(ms, 0)
  {
  }

  lemma PairedFromTail(ms: seq<Message>)
    requires BatchFirst(ms) && Paired(ms[BatchSize(ms[0]) + 1..])
    ensures Paired(ms)
  {
    hide Answered, Owned, BatchFirst;
    BatchFits(ms);
    var n := BatchSize(ms[0]);
    forall i | 0 <= i < |ms|
      ensures Answered(ms, i) && Owned(ms, i)
    {
      if i > n {
        AnsweredShift(ms, n + 1, i - n - 1);
        OwnedShift(ms, i);
      } else if i > 0 {
        ResultOfFirst(ms, i);
      }
    }
  }

  lemma TailPaired(ms: seq<Message>)
    requires ms != [] && Paired(ms)
    ensures BatchFirst(ms) && Paired(ms[BatchSize(ms[0]) + 1..])
  {
    assert Answered(ms, 0) && Owned(ms, 0);
    var n := BatchSize(ms[0]);
    var rest := ms[n + 1..];
    forall k | 0 <= k < |rest|
      ensures Answered(rest, k) && Owned(rest, k)
    {
      assert Answered(ms, k + n + 1) && Owned(ms, k + n + 1);
      AnsweredShift(ms, n + 1, k);
      OwnedShift(ms, k + n + 1);
    }
  }

  lemma FirstBatchScans(ms: seq<Message>)
    requires BatchFirst(ms) && ProtocolValid(ms[BatchSize(ms[0]) + 1..])
    ensures ProtocolValid(ms)
  {
    var n := BatchSize(ms[0]);
    var ids := FirstOwes(ms);
    var results, rest := ms[1..1 + n], ms[n + 1..];
    assert ms[1..] == results + rest;
    hide *;
    ScanConcat(Owing(ids), results, rest);
    ScanFirst(ms);
    ValidMeans(rest);
    ValidMeans(ms);
  }

  lemma ScanFirst(ms: seq<Message>)
    requires ms != []
    ensures Scan(NOTHING_OWED, ms) == Scan(After(NOTHING_OWED, ms[0]), ms[1..])
  {
  }

  lemma ValidMeans(ms: seq<Message>)
    ensures ProtocolValid(ms) <==> Scan(NOTHING_OWED, ms) == NOTHING_OWED
  {
  }

  /** What the first message owes its results settle. */
  lemma FirstOwes(ms: seq<Message>) returns (ids: multiset<string>)
    requires BatchFirst(ms)
    ensures After(NOTHING_OWED, ms[0]) == Owing(ids)
    ensures Scan(Owing(ids), ms[1..1 + BatchSize(ms[0])]) == NOTHING_OWED
  {
    var n := BatchSize(ms[0]);
    ids := After(NOTHING_OWED, ms[0]).ids;
    assert |ids| == n;
    if n > 0 {
      ResultsSettle(ids, ms[1..1 + n]);
    } else {
      assert ms[1..1 + n] == [];
    }
  }

  // ----- compaction -----

  const KEEP_LAST: nat := 6

  /** Where the kept tail starts: the first message from `from` on that is no tool result. */
  function TailStart(ms: seq<Message>, from: nat): (start: nat)
    requires from <= |ms|
    ensures from <= start <= |ms|
    ensures forall i :: from <= i < start ==> ms[i].Tool?
    ensures start < |ms| ==> !ms[start].Tool?
    decreases |ms| - from
  {
    if from < |ms| && ms[from].Tool? then TailStart(ms, from + 1) else from
  }

  function CompactedForm(ms: seq<Message>): seq<Message> {
    if |ms| <= KEEP_LAST + 3 then ms
    else
      var start := TailStart(ms, |ms| - KEEP_LAST);
      ms[..2] + [User(Compacted(start - 2))] + ms[start..]
  }

  /** What compaction keeps of a long transcript: the first two messages, a marker with the
      number of those dropped, and the last six without the tool results at their head. */
  lemma CompactedExactly(ms: seq<Message>)
    ensures |ms| <= 9 ==> CompactedForm(ms) == ms
    ensures |ms| > 9 ==>
              exists k :: |ms| - 6 <= k <= |ms| && CutsAt(ms, k) &&
                CompactedForm(ms) == ms[..2] + [User(Compacted(k - 2))] + ms[k..]
  {
    if |ms| > 9 {
      var k := TailStart(ms, |ms| - 6);
      TailIsCut(ms, |ms| - 6);
      assert CutsAt(ms, k);
    }
  }

  /** Among the last six messages the first that is no tool result is at `k`. */
  ghost predicate CutsAt(ms: seq<Message>, k: int) {
    && 0 <= |ms| - 6 <= k <= |ms|
    && (forall i :: |ms| - 6 <= i < k ==> ms[i].Tool?)
    && (k < |ms| ==> !ms[k].Tool?)
  }

  lemma {:induction false} TailIsCut(ms: seq<Message>, from: nat)
    requires from <= |ms|
    ensures from <= TailStart(ms, from) <= |ms|
    ensures forall i :: from <= i < TailStart(ms, from) ==> ms[i].Tool?
    ensures TailStart(ms, from) < |ms| ==> !ms[TailStart(ms, from)].Tool?
    decreases |ms| - from
  {
    if from < |ms| && ms[from].Tool? {
      TailIsCut(ms, from + 1);
    }
  }

  /** `default_compactor`: the tail loses its orphaned results one at a time. */
  method DefaultCompactor(messages: seq<Message>) returns (out: seq<Message>)
    ensures out == CompactedForm(messages)
  {
    if |messages| <= KEEP_LAST + 3 {
      return messages;
    }
    var head := messages[..2];
    var tail := messages[|messages| - KEEP_LAST..];
    while tail != [] && tail[0].Tool?
      invariant |tail| <= KEEP_LAST
      invariant tail == messages[|messages| - |tail|..]
      invariant TailStart(messages, |messages| - |tail|) == TailStart(messages, |messages| - KEEP_LAST)
    {
      tail := tail[1..];
    }
    var dropped := |messages| - |head| - |tail|;
    out := head + [User(Compacted(dropped))] + tail;
  }

  /** What every scan step before a message that is no tool result says: nothing was owed. */
  lemma CutIsClean(p: Pairing, ms: seq<Message>, at: nat, q: Pairing)
    requires at < |ms| && !ms[at].Tool? && q.Owing?
    requires Scan(p, ms) == q
    ensures Scan(p, ms[..at]) == NOTHING_OWED
    ensures Scan(NOTHING_OWED, ms[at..]) == q
  {
    assert ms == ms[..at] + ms[at..];
    ScanConcat(p, ms[..at], ms[at..]);
    BrokenStays(ms[at..]);
    BrokenStays(ms[at..][1..]);
    var r := Scan(p, ms[..at]);
    assert r.Owing? && |r.ids| == 0;
    assert r.ids == multiset{};
  }

  /** The task stays where it was: a transcript's first two messages. */
  predicate Anchored(ms: seq<Message>, system: string, task: string) {
    && |ms| >= 2
    && ms[0] == System(system)
    && ms[1] == User(Prose(task))
  }

  /** Compaction, as the loop calls it (right after the model's reply): what the
      transcript owes does not change, the system message, the task and the reply
      survive, and at most nine messages remain. */
  lemma CompactionIsSafe(ms: seq<Message>, system: string, task: string)
    requires Anchored(ms, system, task) && !ms[|ms| - 1].Tool?
    ensures var out := CompactedForm(ms);
            && Anchored(out, system, task)
            && (|ms| > KEEP_LAST + 3 ==> 4 <= |out|)
            && |out| <= KEEP_LAST + 3 && |out| <= |ms|
            && out[|out| - 1] == ms[|ms| - 1]
            && (Scan(NOTHING_OWED, ms).Owing? ==> Scan(NOTHING_OWED, out) == Scan(NOTHING_OWED, ms))
  {
    if |ms| > KEEP_LAST + 3 {
      var start := TailStart(ms, |ms| - KEEP_LAST);
      var head := ms[..2] + [User(Compacted(start - 2))];
      assert start < |ms|;
      if Scan(NOTHING_OWED, ms).Owing? {
        CutIsClean(NOTHING_OWED, ms, start, Scan(NOTHING_OWED, ms));
        ScanConcat(NOTHING_OWED, head, ms[start..]);
        assert head[1..][1..] == [User(Compacted(start - 2))];
        assert head[1..][1..][1..] == [];
        assert Scan(NOTHING_OWED, head[1..][1..]) == NOTHING_OWED;
        assert Scan(NOTHING_OWED, head[1..]) == NOTHING_OWED;
      }
    }
  }

  lemma CompactedEnd(ms: seq<Message>)
    requires ms != [] && !ms[|ms| - 1].Tool?
    ensures CompactedForm(ms) != [] && CompactedForm(ms)[|CompactedForm(ms)| - 1] == ms[|ms| - 1]
  {
  }

  // ----- the skills that are disclosed -----

  function Disclosed(names: seq<string>): (ms: seq<Message>)
    ensures |ms| == |names| && forall i :: 0 <= i < |ms| ==> ms[i] == User(Skill(names[i]))
  {
    seq(|names|, i requires 0 <= i < |names| => User(Skill(names[i])))
  }

  /** Disclosing skills settles nothing and owes nothing. */
  lemma {:induction false} DisclosedKeeps(ms: seq<Message>, names: seq<string>)
    requires ProtocolValid(ms)
    ensures ProtocolValid(ms + Disclosed(names))
    decreases |names|
  {
    if names == [] {
      assert ms + Disclosed(names) == ms;
    } else {
      var n := |names| - 1;
      DisclosedKeeps(ms, names[..n]);
      assert ms + Disclosed(names) == ms + Disclosed(names[..n]) + [User(Skill(names[n]))];
      ScanAppend(NOTHING_OWED, ms + Disclosed(names[..n]), User(Skill(names[n])));
    }
  }

  // ----- the batch that submits the final answer -----

  /** The results written when call `final` of a batch submits the answer: every call with
      another id is skipped, then the final one is answered. */
  function FinalResults(calls: seq<string>, final: string, verdict: Body): seq<Message> {
    SkippedResults(calls, final) + [Tool(final, verdict)]
  }

  function SkippedResults(calls: seq<string>, final: string): seq<Message> {
    if calls == [] then []
    else if calls[0] == final then SkippedResults(calls[1..], final)
    else [Tool(calls[0], Skipped)] + SkippedResults(calls[1..], final)
  }

  /** The skipped calls are the others, in order. */
  lemma SkippedExactly(calls: seq<string>, id: string, final: string)
    ensures SkippedResults([], final) == []
    ensures SkippedResults([id] + calls, final) ==
            (if id == final then [] else [Tool(id, Skipped)]) + SkippedResults(calls, final)
  {
    assert ([id] + calls)[1..] == calls;
  }

  /** The final call is answered last, once, with the verdict. */
  lemma FinalIsLast(calls: seq<string>, final: string, verdict: Body)
    ensures FinalResults(calls, final, verdict) == SkippedResults(calls, final) + [Tool(final, verdict)]
  {
  }

  /** The ids in a batch other than the final one. */
  ghost function Others(calls: seq<string>, final: string): multiset<string> {
    multiset(calls)[final := 0]
  }

  lemma {:induction false} SkippedSettleOthers(calls: seq<string>, final: string, owed: multiset<string>)
    requires Others(calls, final) <= owed
    ensures Scan(Owing(owed), SkippedResults(calls, final)) == Owing(owed - Others(calls, final))
    decreases |calls|
  {
    if calls == [] {
      assert Others(calls, final) == multiset{};
      assert owed - multiset{} == owed;
    } else {
      var id, rest := calls[0], calls[1..];
      OthersSplit(calls, final);
      if id == final {
        SkippedSettleOthers(rest, final, owed);
      } else {
        var owed' := owed - multiset{id};
        assert id in owed;
        SkippedSettleOthers(rest, final, owed');
        assert owed' - Others(rest, final) == owed - (multiset{id} + Others(rest, final));
        assert SkippedResults(calls, final)[1..] == SkippedResults(rest, final);
      }
    }
  }

  lemma OthersSplit(calls: seq<string>, final: string)
    requires calls != []
    ensures Others(calls, final) ==
            if calls[0] == final then Others(calls[1..], final)
            else multiset{calls[0]} + Others(calls[1..], final)
  {
    assert calls == [calls[0]] + calls[1..];
    assert multiset(calls) == multiset{calls[0]} + multiset(calls[1..]);
  }

  /** A final-answer batch leaves a valid transcript exactly when no other call of the
      batch carries the final call's id. */
  lemma FinalBatchValid(ms: seq<Message>, calls: seq<string>, final: string, verdict: Body)
    requires Scan(NOTHING_OWED, ms) == Owing(multiset(calls)) && final in calls
    ensures ProtocolValid(ms + FinalResults(calls, final, verdict)) <==> multiset(calls)[final] == 1
  {
    hide Others, FinalResults;
    ScanConcat(NOTHING_OWED, ms, FinalResults(calls, final, verdict));
    FinalSettles(calls, final, verdict);
    FinalLeaves(calls, final);
  }

  lemma FinalSettles(calls: seq<string>, final: string, verdict: Body)
    requires final in calls
    ensures Scan(Owing(multiset(calls)), FinalResults(calls, final, verdict)) ==
            Owing(multiset(calls) - Others(calls, final) - multiset{final})
  {
    hide Others;
    var owed := multiset(calls);
    OthersLeave(calls, final);
    SkippedSettleOthers(calls, final, owed);
    ScanAppend(Owing(owed), SkippedResults(calls, final), Tool(final, verdict));
    assert final in owed - Others(calls, final);
  }

  lemma FinalLeaves(calls: seq<string>, final: string)
    requires final in calls
    ensures multiset(calls) - Others(calls, final) - multiset{final} == multiset{} <==> multiset(calls)[final] == 1
  {
    OthersLeave(calls, final);
    hide Others;
    var left := multiset(calls) - Others(calls, final);
    assert (left - multiset{final})[final] == left[final] - 1;
  }

  /** An id shared with the final call leaves a transcript invalid whatever came before the
      batch and whatever the user is then made to say. */
  lemma SharedIdStaysInvalid(ms: seq<Message>, text: string, calls: seq<string>, final: string, verdict: Body,
                             more: seq<Message>)
    requires multiset(calls)[final] >= 2
    requires forall m :: m in more ==> m.User?
    ensures !ProtocolValid(ms + [Assistant(text, calls)] + FinalResults(calls, final, verdict) + more)
  {
    hide FinalResults, Others;
    var grown := ms + [Assistant(text, calls)];
    var results := FinalResults(calls, final, verdict);
    ScanAppend(NOTHING_OWED, ms, Assistant(text, calls));
    ScanConcat(NOTHING_OWED, grown, results);
    ScanConcat(NOTHING_OWED, grown + results, more);
    BrokenStays(results);
    BrokenStays(more);
    if Scan(NOTHING_OWED, grown).Owing? {
      SharedIdOwes(calls, final, verdict);
      StillOwing(Scan(Owing(multiset(calls)), results).ids, more);
    }
  }

  lemma SharedIdOwes(calls: seq<string>, final: string, verdict: Body)
    requires multiset(calls)[final] >= 2
    ensures var after := Scan(Owing(multiset(calls)), FinalResults(calls, final, verdict));
            after.Owing? && |after.ids| > 0
  {
    assert final in multiset(calls);
    FinalSettles(calls, final, verdict);
    OthersLeave(calls, final);
    hide Others;
    assert final in multiset(calls) - Others(calls, final) - multiset{final};
  }

  lemma OthersLeave(calls: seq<string>, final: string)
    ensures Others(calls, final) <= multiset(calls)
    ensures (multiset(calls) - Others(calls, final))[final] == multiset(calls)[final]
    ensures multiset(calls)[final] == 1 ==> multiset(calls) - Others(calls, final) == multiset{final}
  {
  }

  /** What the user says settles no call. */
  lemma StillOwing(owed: multiset<string>, more: seq<Message>)
    requires |owed| > 0 && forall m :: m in more ==> m.User?
    ensures Scan(Owing(owed), more) != NOTHING_OWED
  {
    if more != [] {
      assert more[0] in more;
      BrokenStays(more[1..]);
    }
  }

  /** Two calls with one id, one of them the final answer: the batch of any valid
      transcript gets one result for two calls. */
  lemma SharedFinalIdBreaksProtocol(ms: seq<Message>, text: string, id: string, verdict: Body)
    requires ProtocolValid(ms)
    ensures !ProtocolValid(ms + [Assistant(text, [id, id])] + FinalResults([id, id], id, verdict))
  {
    ScanAppend(NOTHING_OWED, ms, Assistant(text, [id, id]));
    FinalBatchValid(ms + [Assistant(text, [id, id])], [id, id], id, verdict);
    assert multiset([id, id])[id] == 2;
  }
}
