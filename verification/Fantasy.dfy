/** Writes to a fantasy team, read back and compared with what was asked for
    (`fantasy/execute.py`, `fantasy/verify.py`). */
module Fantasy {
  import opened Wrappers

  datatype Kind = Add | Drop | Other

  /** One item of a transfer request, in either platform's vocabulary. */
  datatype Move = Move(elementIn: Option<string>, elementOut: Option<string>, playerId: Option<string>, kind: Kind)

  function Arrivals(m: Move): set<string> {
    (if m.elementIn.Some? then {m.elementIn.value} else {})
    + if m.playerId.Some? && m.kind == Add then {m.playerId.value} else {}
  }

  function Departures(m: Move): set<string> {
    (if m.elementOut.Some? then {m.elementOut.value} else {})
    + if m.playerId.Some? && m.kind == Drop then {m.playerId.value} else {}
  }

  function Ins(intended: seq<Move>): set<string> {
    set i, p | 0 <= i < |intended| && p in Arrivals(intended[i]) :: p
  }

  function Outs(intended: seq<Move>): set<string> {
    set i, p | 0 <= i < |intended| && p in Departures(intended[i]) :: p
  }

  /** A player is to come in by an element that comes in or by an item that adds the player,
      and to go out by an element that goes out or by an item that drops the player. */
  lemma MovesExactly(intended: seq<Move>, p: string)
    ensures p in Ins(intended) <==>
              exists i :: 0 <= i < |intended| &&
                (intended[i].elementIn == Some(p) || (intended[i].playerId == Some(p) && intended[i].kind == Add))
    ensures p in Outs(intended) <==>
              exists i :: 0 <= i < |intended| &&
                (intended[i].elementOut == Some(p) || (intended[i].playerId == Some(p) && intended[i].kind == Drop))
  {
    forall i | 0 <= i < |intended|
      ensures p in Arrivals(intended[i]) <==>
                intended[i].elementIn == Some(p) || (intended[i].playerId == Some(p) && intended[i].kind == Add)
      ensures p in Departures(intended[i]) <==>
                intended[i].elementOut == Some(p) || (intended[i].playerId == Some(p) && intended[i].kind == Drop)
    {
    }
  }

  lemma OneMove(intended: seq<Move>, n: nat)
    requires n < |intended|
    ensures Ins(intended[..n + 1]) == Ins(intended[..n]) + Arrivals(intended[n])
    ensures Outs(intended[..n + 1]) == Outs(intended[..n]) + Departures(intended[n])
  {
    var front, more := intended[..n], intended[..n + 1];
    assert more[n] == intended[n] && forall i :: 0 <= i < n ==> more[i] == front[i];
    forall p ensures p in Ins(more) <==> p in Ins(front) + Arrivals(intended[n]) {
      if i :| 0 <= i < |more| && p in Arrivals(more[i]) {
        assert i == n || p in Arrivals(front[i]);
      }
      if i :| 0 <= i < |front| && p in Arrivals(front[i]) {
        assert p in Arrivals(more[i]);
      }
      assert p in Arrivals(intended[n]) ==> p in Arrivals(more[n]);
    }
    forall p ensures p in Outs(more) <==> p in Outs(front) + Departures(intended[n]) {
      if i :| 0 <= i < |more| && p in Departures(more[i]) {
        assert i == n || p in Departures(front[i]);
      }
      if i :| 0 <= i < |front| && p in Departures(front[i]) {
        assert p in Departures(more[i]);
      }
      assert p in Departures(intended[n]) ==> p in Departures(more[n]);
    }
  }

  /** `_moves`: who is to come in, and who is to go out. */
  method Moves(intended: seq<Move>) returns (ins: set<string>, outs: set<string>)
    ensures ins == Ins(intended) && outs == Outs(intended)
  {
    ins, outs := {}, {};
    assert intended[..0] == [];
    for n := 0 to |intended|
      invariant ins == Ins(intended[..n]) && outs == Outs(intended[..n])
    {
      hide Ins, Outs;
      var t := intended[n];
      OneMove(intended, n);
      if t.elementIn.Some? {
        ins := ins + {t.elementIn.value};
      }
      if t.elementOut.Some? {
        outs := outs + {t.elementOut.value};
      }
      if t.playerId.Some? {
        if t.kind == Add {
          ins := ins + {t.playerId.value};
        } else if t.kind == Drop {
          outs := outs + {t.playerId.value};
        }
      }
    }
    assert intended[..|intended|] == intended;
  }

  // ----- the check -----

  datatype Mismatch =
    | NotIn(player: string)
    | NotOut(player: string)
    | Arrived(players: set<string>)
    | Left(players: set<string>)
    | SizeChanged
    | NetWrong

  /** The squad afterwards is the one asked for, and its size moved as it may. */
  predicate Landed(fpl: bool, ins: set<string>, outs: set<string>, before: set<string>, after: set<string>) {
    && after == (before - outs) + ins
    && ins !! outs
    && |after| - |before| == |ins| - |outs|
    && (fpl ==> |after| == |before|)
  }

  function AsSet(squad: seq<string>): (r: set<string>)
    ensures forall p :: p in r <==> p in squad
  {
    set i | 0 <= i < |squad| :: squad[i]
  }

  /** The players that were to come in and are not there. */
  method CheckArrivals(ins: set<string>, after: set<string>) returns (ms: seq<Mismatch>)
    ensures forall m :: m in ms <==> m.NotIn? && m.player in ins - after
    ensures ms == [] <==> ins <= after
  {
    ms := [];
    var todo := ins;
    while todo != {}
      invariant todo <= ins
      invariant forall m :: m in ms <==> m.NotIn? && m.player in (ins - todo) - after
      invariant ms == [] <==> ins - todo <= after
      decreases |todo|
    {
      var pid :| pid in todo;
      if pid !in after {
        ms := ms + [NotIn(pid)];
      }
      todo := todo - {pid};
    }
  }

  /** The players that were to go out and are still there. */
  method CheckDepartures(outs: set<string>, after: set<string>) returns (ms: seq<Mismatch>)
    ensures forall m :: m in ms <==> m.NotOut? && m.player in outs * after
    ensures ms == [] <==> outs !! after
  {
    ms := [];
    var todo := outs;
    while todo != {}
      invariant todo <= outs
      invariant forall m :: m in ms <==> m.NotOut? && m.player in (outs - todo) * after
      invariant ms == [] <==> (outs - todo) !! after
      decreases |todo|
    {
      var pid :| pid in todo;
      if pid in after {
        ms := ms + [NotOut(pid)];
      }
      todo := todo - {pid};
    }
  }

  /** `verify_transfers`: no mismatch exactly if the squad is the one asked for. */
  method VerifyTransfers(fpl: bool, intended: seq<Move>, squadBefore: seq<string>, squadAfter: seq<string>)
    returns (mismatches: seq<Mismatch>)
    ensures mismatches == [] <==> Landed(fpl, Ins(intended), Outs(intended), AsSet(squadBefore), AsSet(squadAfter))
    ensures forall p :: NotIn(p) in mismatches <==> p in Ins(intended) - AsSet(squadAfter)
    ensures forall p :: NotOut(p) in mismatches <==> p in Outs(intended) * AsSet(squadAfter)
    ensures forall ps :: Arrived(ps) in mismatches <==>
              ps == (AsSet(squadAfter) - AsSet(squadBefore)) - Ins(intended) && ps != {}
    ensures forall ps :: Left(ps) in mismatches <==>
              ps == (AsSet(squadBefore) - AsSet(squadAfter)) - Outs(intended) && ps != {}
    ensures SizeChanged in mismatches <==> fpl && |AsSet(squadAfter)| != |AsSet(squadBefore)|
    ensures NetWrong in mismatches <==>
              && (fpl ==> |AsSet(squadAfter)| == |AsSet(squadBefore)|)
              && |AsSet(squadAfter)| - |AsSet(squadBefore)| != |Ins(intended)| - |Outs(intended)|
  {
    hide Ins, Outs, AsSet;
    var before, after := AsSet(squadBefore), AsSet(squadAfter);
    var ins, outs := Moves(intended);
    var arrivals := CheckArrivals(ins, after);
    var departures := CheckDepartures(outs, after);
    mismatches := arrivals + departures;
    var unexpectedIn, unexpectedOut := (after - before) - ins, (before - after) - outs;
    if unexpectedIn != {} {
      mismatches := mismatches + [Arrived(unexpectedIn)];
    }
    if unexpectedOut != {} {
      mismatches := mismatches + [Left(unexpectedOut)];
    }
    if fpl && |after| != |before| {
      mismatches := mismatches + [SizeChanged];
    } else {
      var net := |ins| - |outs|;
      if |after| - |before| != net {
        mismatches := mismatches + [NetWrong];
      }
    }
    SquadIs(ins, outs, before, after);
  }

  /** The four questions asked of the squads are together one equation. */
  lemma SquadIs(ins: set<string>, outs: set<string>, before: set<string>, after: set<string>)
    ensures (ins <= after && outs !! after && (after - before) - ins == {} && (before - after) - outs == {}) <==>
            after == (before - outs) + ins && ins !! outs
  {
    if ins <= after && outs !! after && (after - before) - ins == {} && (before - after) - outs == {} {
      forall p ensures p in after <==> p in (before - outs) + ins {
        assert p !in (after - before) - ins && p !in (before - after) - outs;
      }
    }
  }

  /** What the size rule adds to the equation: as many arrivals were there already as
      departures were not, and on FPL as many come as go. */
  lemma SizeRule(fpl: bool, ins: set<string>, outs: set<string>, before: set<string>, after: set<string>)
    requires after == (before - outs) + ins && ins !! outs
    ensures Landed(fpl, ins, outs, before, after) <==>
              |ins * before| == |outs - before| && (fpl ==> |ins| == |outs|)
  {
    assert |outs| == |outs * before| + |outs - before| by {
      Split(outs, before);
    }
    assert |ins| == |ins * before| + |ins - before| by {
      Split(ins, before);
    }
    assert |before| == |outs * before| + |before - outs| by {
      Split(before, outs);
      assert before * outs == outs * before;
    }
    assert after == (before - outs) + (ins - before) && (before - outs) !! (ins - before);
  }

  /** The check in full: the equation, no player both in and out, as many arrivals there
      already as departures not there, and on FPL as many in as out. */
  lemma LandedExactly(fpl: bool, ins: set<string>, outs: set<string>, before: set<string>, after: set<string>)
    ensures Landed(fpl, ins, outs, before, after) <==>
              && after == (before - outs) + ins && ins !! outs
              && |ins * before| == |outs - before| && (fpl ==> |ins| == |outs|)
  {
    if after == (before - outs) + ins && ins !! outs {
      SizeRule(fpl, ins, outs, before, after);
    }
  }

  lemma Split(a: set<string>, b: set<string>)
    ensures |a| == |a * b| + |a - b|
  {
    assert a == (a * b) + (a - b);
  }

  /** For a request that makes sense (buy whom you do not have, sell whom you have) the
      check is the equation, and on FPL as many in as out. */
  lemma SensibleRequestLands(fpl: bool, ins: set<string>, outs: set<string>, before: set<string>, after: set<string>)
    requires ins !! before && outs <= before
    ensures Landed(fpl, ins, outs, before, after) <==> after == (before - outs) + ins && (fpl ==> |ins| == |outs|)
  {
    if after == (before - outs) + ins {
      SizeRule(fpl, ins, outs, before, after);
      assert ins * before == {} && outs - before == {};
    }
  }

  /** A failed read-back counts as an empty squad. It is a mismatch except when nothing was
      to come in and the whole squad, as it was read before, was to go out; on FPL, except
      when that squad was empty too. */
  lemma FailedReadBack(fpl: bool, ins: set<string>, outs: set<string>, before: set<string>)
    ensures Landed(fpl, ins, outs, before, {}) <==> ins == {} && outs == before && (fpl ==> before == {})
  {
    if Landed(fpl, ins, outs, before, {}) {
      assert ins <= {} + ((before - outs) + ins);
      assert before - outs <= (before - outs) + ins;
      assert before <= outs;
      assert |outs| == |before|;
      assert |outs - before| == |outs| - |before|;
    }
  }

  // ----- the write -----

  datatype Action = Lineup | Transfer | Unsupported

  datatype Verdict = Act | Ask | Skip

  datatype State = Pending | Approved | Rejected | Expired | Executed | Failed

  datatype Intent = Intent(action: Action, fpl: bool, transfers: seq<Move>)

  /** How the platform behaves: each read gives a squad or fails, the request can or cannot
      be built, the write raises or not; `lineupOk` is what the lineup check says. */
  datatype Answers = Answers(before: Option<seq<string>>, buildable: bool, raises: bool, after: Option<seq<string>>,
                             lineupOk: bool)

  datatype Status = Acted | Proposed | Skipped | Unverified

  class Proposal {
    const intent: Intent
    var state: State

    constructor (intent: Intent)
      ensures this.intent == intent && state == Pending
    {
      this.intent := intent;
      state := Pending;
    }
  }

  /** A fantasy platform, as far as it can be seen: how many writes it was sent. */
  class Platform {
    var writes: nat

    method Write()
      modifies this
      ensures writes == old(writes) + 1
    {
      writes := writes + 1;
    }
  }

  /** `_read_squad`: an empty squad when the read fails. */
  function ReadSquad(reply: Option<seq<string>>): seq<string> {
    if reply.Some? then reply.value else []
  }

  predicate Sends(i: Intent, a: Answers) {
    i.action != Unsupported && a.buildable
  }

  /** The write went out, was answered, and the squad read back is the one asked for. */
  predicate Confirmed(i: Intent, a: Answers) {
    && Sends(i, a) && !a.raises
    && match i.action
       case Lineup => a.lineupOk
       case _ =>
         Landed(i.fpl, Ins(i.transfers), Outs(i.transfers), AsSet(ReadSquad(a.before)), AsSet(ReadSquad(a.after)))
  }

  /** The proposal gets its outcome, if there is one. */
  method RecordOutcome(p: Option<Proposal>, ok: bool)
    modifies if p.Some? then {p.value} else {}
    ensures p.Some? ==> p.value.state == if ok then Executed else Failed
  {
    if p.Some? {
      p.value.state := if ok then Executed else Failed;
    }
  }

  /** `_write_and_verify`: one write, never repeated; acted only if it is confirmed. */
  method WriteAndVerify(i: Intent, a: Answers, platform: Platform, p: Option<Proposal>) returns (status: Status)
    modifies platform, if p.Some? then {p.value} else {}
    ensures platform.writes == old(platform.writes) + if Sends(i, a) then 1 else 0
    ensures status == if i.action == Unsupported then Skipped else if Confirmed(i, a) then Acted else Unverified
    ensures p.Some? ==>
              p.value.state ==
              match status case Acted => Executed case Unverified => Failed case _ => old(p.value.state)
  {
    var before := ReadSquad(a.before);
    if i.action == Unsupported {
      return Skipped;
    }
    if !a.buildable {
      RecordOutcome(p, false);
      return Unverified;
    }
    platform.Write();
    if a.raises {
      RecordOutcome(p, false);
      return Unverified;
    }
    var after := ReadSquad(a.after);
    var ok;
    if i.action == Lineup {
      ok := a.lineupOk;
    } else {
      var mismatches := VerifyTransfers(i.fpl, i.transfers, before, after);
      ok := mismatches == [];
    }
    RecordOutcome(p, ok);
    status := if ok then Acted else Unverified;
  }

  /** The policy lets this intent through to the write. */
  predicate Proceeds(verdict: Verdict, approval: Option<State>) {
    && verdict != Skip
    && (verdict == Ask ==> approval.Some?)
    && (approval.Some? ==> approval.value == Approved)
  }

  /** `run_intent`: at most one write, none without the policy's or the owner's consent; a
      transfer that acted was sent exactly once and the squads read before and after satisfy
      the equation. An unanswered question leaves one new pending proposal. */
  method RunIntent(i: Intent, verdict: Verdict, approved: Option<Proposal>, a: Answers, platform: Platform)
    returns (status: Status, made: Option<Proposal>)
    modifies platform, if approved.Some? then {approved.value} else {}
    ensures var go := Proceeds(verdict, if approved.Some? then Some(old(approved.value.state)) else None);
            && platform.writes == old(platform.writes) + (if go && Sends(i, a) then 1 else 0)
            && (status == Acted <==> go && Confirmed(i, a))
            && (!go && approved.Some? ==> approved.value.state == old(approved.value.state))
    ensures status == Acted && i.action == Transfer ==>
              && platform.writes == old(platform.writes) + 1
              && AsSet(ReadSquad(a.after)) ==
                 (AsSet(ReadSquad(a.before)) - Outs(i.transfers)) + Ins(i.transfers)
    ensures made.Some? <==> verdict == Ask && approved.None?
    ensures made.Some? ==>
              status == Proposed && fresh(made.value) && made.value.state == Pending && made.value.intent == i
  {
    made := None;
    if verdict == Skip {
      return Skipped, None;
    }
    if verdict == Ask && approved.None? {
      var p := new Proposal(i);
      return Proposed, Some(p);
    }
    if approved.Some? && approved.value.state != Approved {
      return Skipped, None;
    }
    status := WriteAndVerify(i, a, platform, approved);
  }

  // ----- when anything is written, and when it counts -----

  /** The write is let through by the policy alone, or by the owner's approval where one is
      asked for or there is a proposal. */
  lemma ProceedsExactly(verdict: Verdict, approval: Option<State>)
    ensures Proceeds(verdict, approval) <==>
              || (verdict == Act && approval.None?)
              || (verdict != Skip && approval == Some(Approved))
  {
  }

  /** A request that can be built is sent, for a lineup or a transfer; it counts if it was
      answered and the team read back is the one asked for, a failed read being an empty
      team. */
  lemma ConfirmedExactly(i: Intent, a: Answers)
    ensures Sends(i, a) <==> a.buildable && (i.action == Lineup || i.action == Transfer)
    ensures i.action == Lineup ==> (Confirmed(i, a) <==> a.buildable && !a.raises && a.lineupOk)
    ensures i.action == Transfer ==>
              (Confirmed(i, a) <==>
                 && a.buildable && !a.raises
                 && Landed(i.fpl, Ins(i.transfers), Outs(i.transfers),
                           AsSet(if a.before.Some? then a.before.value else []),
                           AsSet(if a.after.Some? then a.after.value else [])))
    ensures i.action == Unsupported ==> !Confirmed(i, a)
  {
  }
}
