/** The no-progress detector of `agents/harness.py`: a run stops when the tail of its
    tool-call signatures is one short cycle written three times. */
module Thrash {

  const NO_PROGRESS_MAX_PERIOD: nat := 3
  const NO_PROGRESS_REPEATS: nat := 3

  ghost predicate EndsInCube<T(!new)>(s: seq<T>, period: nat) {
    exists pre, block :: |block| == period && s == pre + (block + block + block)
  }

  ghost predicate Thrashing<T(!new)>(s: seq<T>) {
    exists period :: 1 <= period <= NO_PROGRESS_MAX_PERIOD && EndsInCube(s, period)
  }

  /** No stretch of `s`, wherever it ends, is a block of one to three signatures three
      times in a row. */
  ghost predicate Progressing<T(!new)>(s: seq<T>) {
    forall n :: 0 <= n <= |s| ==> !Thrashing(s[..n])
  }

  /** Comparing the window position by position with its own first block asks whether it
      is that block three times. */
  lemma WindowIsCube(window: seq<string>, period: nat)
    requires 1 <= period <= NO_PROGRESS_MAX_PERIOD && |window| == period * NO_PROGRESS_REPEATS
    ensures var b := window[..period];
            (forall i :: 0 <= i < |window| ==> window[i] == b[i % period]) <==> window == b + b + b
  {
    var b := window[..period];
    forall i | 0 <= i < |window|
      ensures 0 <= i % period < period && b[i % period] == (b + b + b)[i]
    {
      ThirdOf(i, period);
    }
    if forall i :: 0 <= i < |window| ==> window[i] == b[i % period] {
      assert forall i :: 0 <= i < |window| ==> window[i] == (b + b + b)[i];
    }
  }

  lemma ThirdOf(i: nat, period: nat)
    requires 1 <= period <= NO_PROGRESS_MAX_PERIOD && i < 3 * period
    ensures i % period == if i < period then i else if i < 2 * period then i - period else i - 2 * period
  {
    if period == 1 {
    } else if period == 2 {
    } else {
      assert period == 3;
    }
  }

  /** `is_thrashing`: true exactly when the tail is such a repetition. */
  method IsThrashing(signatures: seq<string>) returns (b: bool)
    ensures b <==> Thrashing(signatures)
  {
    for period := 1 to NO_PROGRESS_MAX_PERIOD + 1
      invariant forall p :: 1 <= p < period ==> !EndsInCube(signatures, p)
    {
      var n := period * NO_PROGRESS_REPEATS;
      if |signatures| < n {
        continue;
      }
      var window := signatures[|signatures| - n..];
      var block := window[..period];
      WindowIsCube(window, period);
      TailIsWindow(signatures, period);
      if forall i :: 0 <= i < n ==> window[i] == block[i % period] {
        return true;
      }
    }
    return false;
  }

  lemma TailIsWindow<T(!new)>(s: seq<T>, period: nat)
    requires 3 * period <= |s|
    ensures var window := s[|s| - 3 * period..];
            EndsInCube(s, period) <==> window == window[..period] + window[..period] + window[..period]
  {
    var window := s[|s| - 3 * period..];
    var b := window[..period];
    if EndsInCube(s, period) {
      var pre, block :| |block| == period && s == pre + (block + block + block);
      assert window == block + block + block;
      assert b == block;
    }
    assert s == s[..|s| - 3 * period] + window;
  }

  lemma NothingThrashes<T(!new)>()
    ensures Progressing<T>([])
  {
  }

  /** One more signature that does not end a repetition keeps the whole sequence free of them. */
  lemma StillProgressing<T(!new)>(s: seq<T>, x: T)
    requires Progressing(s) && !Thrashing(s + [x])
    ensures Progressing(s + [x])
  {
    forall n | 0 <= n <= |s| + 1
      ensures !Thrashing((s + [x])[..n])
    {
      if n <= |s| {
        assert (s + [x])[..n] == s[..n];
      } else {
        assert (s + [x])[..n] == s + [x];
      }
    }
  }

  /** `block` stands three times in a row at position `at` of `s`. */
  ghost predicate CubeAt<T(!new)>(s: seq<T>, at: nat, block: seq<T>) {
    at + 3 * |block| <= |s| && s[at..at + 3 * |block|] == block + block + block
  }

  /** `Progressing` position by position: a block of one to three signatures stands three
      times in a row nowhere, and that is all it says. */
  lemma NoCubeAnywhere<T(!new)>(s: seq<T>)
    ensures Progressing(s) <==>
              forall at: nat, block: seq<T> :: 1 <= |block| <= 3 ==> !CubeAt(s, at, block)
  {
    if at: nat, block :| 1 <= |block| <= NO_PROGRESS_MAX_PERIOD && CubeAt(s, at, block) {
      var end := at + 3 * |block|;
      assert s[..end] == s[..at] + (block + block + block);
      assert EndsInCube(s[..end], |block|);
      assert Thrashing(s[..end]);
    }
    if n :| 0 <= n <= |s| && Thrashing(s[..n]) {
      var period :| 1 <= period <= NO_PROGRESS_MAX_PERIOD && EndsInCube(s[..n], period);
      var pre, block :| |block| == period && s[..n] == pre + (block + block + block);
      assert s[|pre|..n] == s[..n][|pre|..];
      assert CubeAt(s, |pre|, block);
    }
  }

  function Map<T, U>(f: T -> U, s: seq<T>): seq<U> {
    seq(|s|, i requires 0 <= i < |s| => f(s[i]))
  }

  /** What repeats still does under any other name. */
  lemma RenamedThrashes<T(!new), U(!new)>(f: T -> U, s: seq<T>)
    requires Thrashing(s)
    ensures Thrashing(Map(f, s))
  {
    var period :| 1 <= period <= NO_PROGRESS_MAX_PERIOD && EndsInCube(s, period);
    var pre, block :| |block| == period && s == pre + (block + block + block);
    var p, b := Map(f, pre), Map(f, block);
    assert Map(f, s) == p + (b + b + b);
    assert EndsInCube(Map(f, s), period);
  }

  /** And does so already if no two things have one name. */
  lemma NamedApartThrashes<T(!new), U(!new)>(f: T -> U, s: seq<T>)
    requires forall x, y :: x in s && y in s && f(x) == f(y) ==> x == y
    requires Thrashing(Map(f, s))
    ensures Thrashing(s)
  {
    var period :| 1 <= period <= NO_PROGRESS_MAX_PERIOD && EndsInCube(Map(f, s), period);
    var pre, block :| |block| == period && Map(f, s) == pre + (block + block + block);
    var n := |pre|;
    var b := s[n..n + period];
    forall i: nat | i < 3 * period ensures s[n + i] == (b + b + b)[i] {
      var k := WithinBlock(i, period);
      Triple(block, i);
      Triple(b, i);
      assert Map(f, s)[n + i] == block[k] == Map(f, s)[n + k];
    }
    assert s == s[..n] + (b + b + b);
    assert EndsInCube(s, period);
  }

  function WithinBlock(i: nat, period: nat): (k: nat)
    requires i < 3 * period
    ensures k < period
  {
    if i < period then i else if i < 2 * period then i - period else i - 2 * period
  }

  lemma Triple<T>(b: seq<T>, i: nat)
    requires i < 3 * |b|
    ensures (b + b + b)[i] == b[WithinBlock(i, |b|)]
  {
  }

  /** So names that never repeat are names of what never repeats. */
  lemma RenamedProgress<T(!new), U(!new)>(f: T -> U, s: seq<T>)
    requires Progressing(Map(f, s))
    ensures Progressing(s)
  {
    forall n | 0 <= n <= |s| ensures !Thrashing(s[..n]) {
      assert Map(f, s[..n]) == Map(f, s)[..n];
      if Thrashing(s[..n]) {
        RenamedThrashes(f, s[..n]);
      }
    }
  }
}
