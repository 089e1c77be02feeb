/** Whether two side names are one team (`operations/resolution/resolver.py`): every token of
    the shorter name has a partner in the longer. */
module Names {

  /** How names are cut into tokens, which tokens mark a variant of a team, and whether a lone
      token is the initials of some others. */
  datatype Naming = Naming(
    tokens: string -> set<string>, markers: set<string> -> set<string>, initials: (string, set<string>) -> bool)

  predicate Subsequence(s: string, t: string) {
    if s == "" then true
    else if t == "" then false
    else if s[0] == t[0] then Subsequence(s[1..], t[1..])
    else Subsequence(s, t[1..])
  }

  /** Equal, a prefix, or from three letters on an abbreviation. */
  predicate TokenMatch(a: string, b: string) {
    var short, long := if |a| <= |b| then a else b, if |a| <= |b| then b else a;
    a == b || (|short| == 1 && short <= long) || (|short| >= 3 && (short <= long || Subsequence(short, long)))
  }

  /** Every token has a partner among the others. */
  predicate Partnered(x: set<string>, y: set<string>) {
    forall t :: t in x ==> exists u :: u in y && TokenMatch(t, u)
  }

  /** The first of two names is the shorter one, also when they are equally long. */
  predicate SideOk(n: Naming, a: string, b: string) {
    var x, y := n.tokens(a), n.tokens(b);
    var short, long := if |x| <= |y| then x else y, if |x| <= |y| then y else x;
    && n.markers(x) == n.markers(y)
    && ((|short| == 1 && |long| >= 2 && exists t :: t in short && n.initials(t, long))
        || (short != {} && Partnered(short, long)))
  }

  /** The answer depends on which name comes first exactly for names of one length and one
      variant of which only one is partnered by the other. */
  lemma OneWayExactly(n: Naming, a: string, b: string)
    ensures var x, y := n.tokens(a), n.tokens(b);
            SideOk(n, a, b) != SideOk(n, b, a) <==>
              |x| == |y| && n.markers(x) == n.markers(y) && Partnered(x, y) != Partnered(y, x)
  {
    hide Partnered;
    var x, y := n.tokens(a), n.tokens(b);
    if |x| == |y| && x == {} {
      assert y == {};
    }
  }

  lemma SameIsOk(n: Naming, a: string)
    requires n.tokens(a) != {}
    ensures SideOk(n, a, a)
  {
    assert forall t :: t in n.tokens(a) ==> TokenMatch(t, t);
  }

  /** Names without a pair of matching tokens are not one team, unless as initials. */
  lemma StrangersDiffer(n: Naming, a: string, b: string)
    requires n.tokens(a) != {} && n.tokens(b) != {}
    requires forall t, x :: !n.initials(t, x)
    requires forall t, u :: t in n.tokens(a) && u in n.tokens(b) ==> !TokenMatch(t, u) && !TokenMatch(u, t)
    ensures !SideOk(n, a, b) && !SideOk(n, b, a)
  {
    hide TokenMatch;
  }

  /** Three players, two of them with two names. */
  function Words(name: string): set<string> {
    if name == "Martin Martinez" then {"martin", "martinez"}
    else if name == "Martinez Fernando" then {"martinez", "fernando"}
    else {"jones"}
  }

  const PLAYERS := Naming(Words, _ => {}, (_, _) => false)

  lemma {:induction false} FirstLetterMissing(s: string, t: string)
    requires s != "" && s[0] !in t
    ensures !Subsequence(s, t)
    decreases |t|
  {
    if t != "" {
      assert s[0] != t[0];
      FirstLetterMissing(s, t[1..]);
    }
  }

  lemma WordsAlike()
    ensures TokenMatch("martin", "martinez") && TokenMatch("martinez", "martinez")
    ensures !TokenMatch("fernando", "martin") && !TokenMatch("fernando", "martinez")
  {
    assert "martin"[0] == 'm' && "fernando"[0] == 'f';
    assert "martin" == "martinez"[..6];
    FirstLetterMissing("martin", "fernando");
    FirstLetterMissing("fernando", "martinez");
  }

  predicate Strange(t: string) {
    !TokenMatch("jones", t) && !TokenMatch(t, "jones")
  }

  lemma JonesIsStrange()
    ensures Strange("martin") && Strange("martinez") && Strange("fernando")
  {
    assert "martin"[0] == 'm' && "martinez"[0] == 'm' && "fernando"[0] == 'f' && "jones"[0] == 'j';
    FirstLetterMissing("jones", "martin");
    FirstLetterMissing("jones", "martinez");
    FirstLetterMissing("jones", "fernando");
  }

  lemma PartneredOneWay(a: string, b: string, c: string)
    requires TokenMatch(a, b) && TokenMatch(b, b) && !TokenMatch(c, a) && !TokenMatch(c, b)
    ensures Partnered({a, b}, {b, c}) && !Partnered({b, c}, {a, b})
  {
    hide TokenMatch;
    assert c in {b, c};
  }

  lemma WordsOf()
    ensures Words("Martin Martinez") == {"martin", "martinez"}
    ensures Words("Martinez Fernando") == {"martinez", "fernando"}
    ensures Words("Jones") == {"jones"}
  {
    assert "Martin Martinez"[6] == ' ' && "Martinez Fernando"[6] == 'e' && "Jones"[0] == 'J';
  }

  lemma MartinIsMartinez()
    ensures SideOk(PLAYERS, "Martin Martinez", "Martinez Fernando")
    ensures !SideOk(PLAYERS, "Martinez Fernando", "Martin Martinez")
  {
    hide Partnered, TokenMatch, Words;
    WordsOf();
    WordsAlike();
    PartneredOneWay("martin", "martinez", "fernando");
    assert "martin"[0] == 'm' && "fernando"[0] == 'f' && |"martin"| != |"martinez"|;
    assert |{"martin", "martinez"}| == 2 && |{"martinez", "fernando"}| == 2;
  }

  /** And Jones is Jones, and neither of the two. */
  lemma JonesIsJones()
    ensures SideOk(PLAYERS, "Jones", "Jones")
    ensures !SideOk(PLAYERS, "Martin Martinez", "Jones")
    ensures !SideOk(PLAYERS, "Martinez Fernando", "Jones") && !SideOk(PLAYERS, "Jones", "Martinez Fernando")
  {
    hide SideOk, TokenMatch, Words;
    WordsOf();
    JonesIsStrange();
    SameIsOk(PLAYERS, "Jones");
    StrangersDiffer(PLAYERS, "Martin Martinez", "Jones");
    StrangersDiffer(PLAYERS, "Martinez Fernando", "Jones");
  }

  // ----- what a match is -----

  /** `at` picks the letters of `s` out of `t`, in order. */
  ghost predicate Picks(s: string, t: string, at: seq<nat>) {
    && |at| == |s|
    && (forall k :: 0 <= k < |at| ==> at[k] < |t| && t[at[k]] == s[k])
    && forall k, l :: 0 <= k < l < |at| ==> at[k] < at[l]
  }

  lemma {:induction false} PickedOut(s: string, t: string) returns (at: seq<nat>)
    requires Subsequence(s, t)
    ensures Picks(s, t, at)
    decreases |t|
  {
    if s == "" {
      at := [];
    } else if s[0] == t[0] {
      var more := PickedOut(s[1..], t[1..]);
      at := [0] + Moved(more);
      PicksFirst(s, t, more);
    } else {
      var more := PickedOut(s, t[1..]);
      at := Moved(more);
    }
  }

  function Moved(at: seq<nat>): (r: seq<nat>)
    ensures |r| == |at| && forall k :: 0 <= k < |at| ==> r[k] == at[k] + 1
  {
    seq(|at|, k requires 0 <= k < |at| => at[k] + 1)
  }

  lemma PicksFirst(s: string, t: string, more: seq<nat>)
    requires s != "" && t != "" && s[0] == t[0] && Picks(s[1..], t[1..], more)
    ensures Picks(s, t, [0] + Moved(more))
  {
    hide Moved;
    var at, rest := [0] + Moved(more), Moved(more);
    forall k | 0 <= k < |at| ensures at[k] < |t| && t[at[k]] == s[k] {
      if k > 0 {
        assert at[k] == rest[k - 1] == more[k - 1] + 1 && t[1..][more[k - 1]] == s[1..][k - 1];
      }
    }
    forall k, l | 0 <= k < l < |at| ensures at[k] < at[l] {
      assert at[l] == rest[l - 1] && (k > 0 ==> at[k] == rest[k - 1]);
    }
  }

  lemma {:induction false} PickingIsEnough(s: string, t: string, at: seq<nat>)
    requires Picks(s, t, at)
    ensures Subsequence(s, t)
    decreases |t|
  {
    if s != "" {
      assert at[0] < |t|;
      if s[0] == t[0] {
        var more := seq(|at| - 1, k requires 0 <= k < |at| - 1 => at[k + 1] - 1);
        PickingIsEnough(s[1..], t[1..], more);
      } else {
        assert at[0] > 0;
        var moved := seq(|at|, k requires 0 <= k < |at| => at[k] - 1);
        PickingIsEnough(s, t[1..], moved);
      }
    }
  }

  /** A token is an abbreviation of another if its letters can be picked out of it in order. */
  lemma SubsequenceExactly(s: string, t: string)
    ensures Subsequence(s, t) <==> exists at :: Picks(s, t, at)
  {
    if Subsequence(s, t) {
      var at := PickedOut(s, t);
    }
    if at :| Picks(s, t, at) {
      PickingIsEnough(s, t, at);
    }
  }

  /** Tokens match if they are the same, if one is the other's initial, or if one, of three
      letters or more, abbreviates the other; in either order. */
  lemma TokenMatchExactly(a: string, b: string)
    requires |a| <= |b|
    ensures TokenMatch(a, b) <==> a == b || (|a| == 1 && a[0] == b[0]) || (|a| >= 3 && Subsequence(a, b))
    ensures TokenMatch(b, a) <==> TokenMatch(a, b)
  {
    if a <= b {
      var at := seq(|a|, k requires 0 <= k < |a| => k);
      assert Picks(a, b, at);
      PickingIsEnough(a, b, at);
    }
    if |a| == |b| {
      SameLength(a, b);
      SameLength(b, a);
    }
  }

  lemma {:induction false} SameLength(a: string, b: string)
    requires |b| <= |a|
    ensures Subsequence(a, b) ==> a == b
    decreases |b|
  {
    if Subsequence(a, b) && a != "" {
      SameLength(if a[0] == b[0] then a[1..] else a, b[1..]);
    }
  }

  /** A name matches one that is no shorter if both are of one variant, and either it is the
      initials of the other or every token of it has a partner there. */
  lemma SideOkExactly(n: Naming, a: string, b: string)
    ensures var x, y := n.tokens(a), n.tokens(b);
            && (|x| <= |y| ==>
                  (SideOk(n, a, b) <==>
                     && n.markers(x) == n.markers(y)
                     && ((|x| == 1 && |y| >= 2 && exists t :: t in x && n.initials(t, y))
                         || (x != {} && forall t :: t in x ==> exists u :: u in y && TokenMatch(t, u)))))
            && (|x| > |y| ==> SideOk(n, a, b) == SideOk(n, b, a))
  {
  }
}
