/** The gateway's rate limiter (`gateway/app.py`): a pruned list of hits per key that
    decides as the full history would. */
module RateLimit {

  const WINDOW := 60.0

  /** The hits that still count at `now`, in order. */
  function Recent(hits: seq<real>, now: real): (r: seq<real>)
    ensures |r| <= |hits|
  {
    if hits == [] then []
    else
      var n := |hits| - 1;
      Recent(hits[..n], now) + if now - hits[n] < WINDOW then [hits[n]] else []
  }

  /** A key that was never seen has no hits. */
  function Of(m: map<string, seq<real>>, key: string): seq<real> {
    if key in m then m[key] else []
  }

  lemma OfExactly(m: map<string, seq<real>>, key: string)
    ensures key in m ==> Of(m, key) == m[key]
    ensures key !in m ==> Of(m, key) == []
  {
  }

  /** From `clock` on, two lists count the same hits. */
  ghost predicate Agree(a: seq<real>, b: seq<real>, clock: real) {
    forall now :: now >= clock ==> Recent(a, now) == Recent(b, now)
  }

  ghost predicate Sorted(h: seq<real>) {
    forall i, j :: 0 <= i < j < |h| ==> h[i] <= h[j]
  }

  ghost predicate NotAfter(h: seq<real>, clock: real) {
    forall i :: 0 <= i < |h| ==> h[i] <= clock
  }

  /** No span shorter than the window holds more than `most` hits. */
  ghost predicate Spaced(h: seq<real>, most: int) {
    forall i, j :: 0 <= i <= j < |h| && h[j] - h[i] < WINDOW ==> j - i + 1 <= most
  }

  ghost function InLastMinute(hits: seq<real>, now: real): set<nat> {
    set i: nat | i < |hits| && now - hits[i] < 60.0
  }

  /** The recent hits are those of the last minute. */
  lemma {:induction false} RecentExactly(hits: seq<real>, now: real)
    ensures |Recent(hits, now)| == |InLastMinute(hits, now)|
    ensures forall t :: t in Recent(hits, now) <==> t in hits && now - t < 60.0
    decreases |hits|
  {
    if hits == [] {
      assert InLastMinute(hits, now) == {};
    } else {
      var n := |hits| - 1;
      RecentExactly(hits[..n], now);
      assert hits == hits[..n] + [hits[n]];
      InLastMinuteStep(hits[..n], hits[n], now);
    }
  }

  lemma InLastMinuteStep(hits: seq<real>, t: real, now: real)
    ensures |InLastMinute(hits + [t], now)| == |InLastMinute(hits, now)| + if now - t < 60.0 then 1 else 0
  {
    var all := hits + [t];
    assert all[|hits|] == t && forall i :: 0 <= i < |hits| ==> all[i] == hits[i];
    assert InLastMinute(all, now) == InLastMinute(hits, now) + if now - t < 60.0 then {|hits|} else {};
    assert |hits| !in InLastMinute(hits, now);
  }

  lemma {:induction false} PruningIsForgetting(h: seq<real>, earlier: real, now: real)
    requires earlier <= now
    ensures Recent(Recent(h, earlier), now) == Recent(h, now)
    decreases |h|
  {
    if h != [] {
      var n := |h| - 1;
      PruningIsForgetting(h[..n], earlier, now);
      if earlier - h[n] < WINDOW {
        assert (Recent(h[..n], earlier) + [h[n]])[..|Recent(h[..n], earlier)|] == Recent(h[..n], earlier);
      } else {
        assert Recent(h, earlier) == Recent(h[..n], earlier);
      }
    }
  }

  lemma RecentAppend(h: seq<real>, t: real, now: real)
    ensures Recent(h + [t], now) == Recent(h, now) + if now - t < WINDOW then [t] else []
  {
    assert (h + [t])[..|h|] == h;
  }

  /** Pruned at `now` and the new hit appended: still the same as the full history. */
  lemma AgreeOnHit(pruned: seq<real>, full: seq<real>, clock: real, now: real)
    requires Agree(pruned, full, clock) && clock <= now
    ensures Agree(Recent(pruned, now) + [now], full + [now], now)
  {
    hide Recent;
    forall later | later >= now
      ensures Recent(Recent(pruned, now) + [now], later) == Recent(full + [now], later)
    {
      RecentAppend(Recent(pruned, now), now, later);
      RecentAppend(full, now, later);
      PruningIsForgetting(pruned, now, later);
    }
  }

  /** In a sorted history the recent hits are the last ones. */
  lemma {:induction false} RecentIsSuffix(h: seq<real>, now: real, i: nat)
    requires Sorted(h) && i < |h| && now - h[i] < WINDOW
    ensures |Recent(h, now)| >= |h| - i
    decreases |h|
  {
    var n := |h| - 1;
    assert h[i] <= h[n];
    if i < n {
      RecentIsSuffix(h[..n], now, i);
    }
  }

  lemma SpacedOnHit(h: seq<real>, now: real, most: int)
    requires Sorted(h) && NotAfter(h, now) && Spaced(h, most) && |Recent(h, now)| < most
    ensures Sorted(h + [now]) && NotAfter(h + [now], now) && Spaced(h + [now], most)
  {
    forall i | 0 <= i < |h| && now - h[i] < WINDOW ensures |h| - i + 1 <= most {
      RecentIsSuffix(h, now, i);
    }
  }

  /** What one key's pruned list and full history have to do with each other. */
  ghost predicate InStep(pruned: seq<real>, full: seq<real>, clock: real, most: int) {
    && Agree(pruned, full, clock)
    && Sorted(full) && NotAfter(full, clock) && Spaced(full, most)
    && (pruned != [] ==> |pruned| <= most)
  }

  /** The full history after a request: one more if there is room in the last window. */
  function Admit(full: seq<real>, now: real, most: int): seq<real> {
    if |Recent(full, now)| < most then full + [now] else full
  }

  /** One more exactly if fewer than the limit are in the last minute. */
  lemma AdmitExactly(full: seq<real>, now: real, most: int)
    ensures Admit(full, now, most) == if |InLastMinute(full, now)| < most then full + [now] else full
  {
    RecentExactly(full, now);
  }

  lemma RequestKeepsStep(pruned: seq<real>, full: seq<real>, clock: real, now: real, most: int)
    requires InStep(pruned, full, clock, most) && clock <= now
    ensures Recent(pruned, now) == Recent(full, now)
    ensures InStep(pruned, full, now, most)
    ensures |Recent(full, now)| < most ==> InStep(Recent(pruned, now) + [now], Admit(full, now, most), now, most)
  {
    hide Recent;
    assert Agree(pruned, full, now) && NotAfter(full, now);
    if |Recent(full, now)| < most {
      AgreeOnHit(pruned, full, clock, now);
      SpacedOnHit(full, now, most);
    }
  }

  class RateLimiter {
    const perMinute: int
    var hits: map<string, seq<real>>
    /** Every accepted hit, for ever. */
    ghost var history: map<string, seq<real>>
    /** The latest clock reading. */
    ghost var clock: real

    ghost predicate Valid()
      reads this
    {
      forall key :: InStep(Of(hits, key), Of(history, key), clock, perMinute)
    }

    constructor (perMinute: int, ghost start: real)
      ensures Valid() && this.perMinute == perMinute && clock == start
      ensures forall key :: Of(history, key) == []
    {
      this.perMinute := perMinute;
      hits, history, clock := map[], map[], start;
    }

    /** Accepts exactly if the full history has room for one more in the last window, and
        then, and only then, remembers the hit. A refusal stores nothing. */
    method Check(key: string, now: real) returns (ok: bool)
      requires Valid() && clock <= now
      modifies this
      ensures Valid() && clock == now
      ensures ok <==> |InLastMinute(old(Of(history, key)), now)| < perMinute
      ensures Of(history, key) == if ok then old(Of(history, key)) + [now] else old(Of(history, key))
      ensures forall k :: k != key ==> Of(history, k) == old(Of(history, k))
      ensures !ok ==> hits == old(hits)
    {
      hide Recent, InStep, InLastMinute;
      RecentExactly(Of(history, key), now);
      forall k ensures InStep(Of(hits, k), Of(history, k), now, perMinute) {
        RequestKeepsStep(Of(hits, k), Of(history, k), clock, now, perMinute);
      }
      RequestKeepsStep(Of(hits, key), Of(history, key), clock, now, perMinute);
      var recent := Recent(Of(hits, key), now);
      ok := |recent| < perMinute;
      clock := now;
      if ok {
        history := history[key := Of(history, key) + [now]];
        hits := hits[key := recent + [now]];
        forall k ensures InStep(Of(hits, k), Of(history, k), now, perMinute) {
          if k != key {
            assert Of(hits, k) == old(Of(hits, k)) && Of(history, k) == old(Of(history, k));
          }
        }
      }
    }
  }

  /** The full history of one key whose requests came in at `times`. */
  function Accepted(times: seq<real>, most: int): seq<real> {
    if times == [] then [] else Admit(Accepted(times[..|times| - 1], most), times[|times| - 1], most)
  }

  /** However requests come in, every span shorter than the window holds at most `most`
      accepted ones. */
  lemma {:induction false} AcceptedIsSpaced(times: seq<real>, most: int)
    requires Sorted(times)
    ensures Spaced(Accepted(times, most), most) && Sorted(Accepted(times, most))
    ensures times != [] ==> NotAfter(Accepted(times, most), times[|times| - 1])
    decreases |times|
  {
    hide Recent;
    if times != [] {
      var n := |times| - 1;
      var before := Accepted(times[..n], most);
      AcceptedIsSpaced(times[..n], most);
      assert n > 0 ==> times[n - 1] <= times[n];
      assert NotAfter(before, times[n]) by {
        if n == 0 {
          assert before == [];
        }
      }
      if |Recent(before, times[n])| < most {
        SpacedOnHit(before, times[n], most);
      }
    }
  }
}
