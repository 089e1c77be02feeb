/** The delegation lint of `agents/loader.py`: a recursive three-colour search that
    updates one colour table and one problem list in place.

    The main result is on `CycleLint.Run`: a problem is reported if and only if the
    graph of loaded agents, without self-edges and dangling targets, has a cycle. */
module Delegation {

  datatype Colour = White | Grey | Black

  /** A reported cycle: the agent names that the message joins with arrows. */
  datatype Report = Report(names: seq<string>)

  type Specs = map<string, seq<string>>

  /** `u` may hand a task to `v`. Self-edges and unknown targets are reported
      elsewhere and are no edges here. */
  predicate Edge(specs: Specs, u: string, v: string) {
    u in specs && v in specs && u != v && v in specs[u]
  }

  predicate Walk(specs: Specs, p: seq<string>) {
    forall i :: 0 <= i < |p| - 1 ==> Edge(specs, p[i], p[i + 1])
  }

  predicate IsCycle(specs: Specs, c: seq<string>) {
    && |c| >= 2
    && Walk(specs, c)
    && Edge(specs, c[|c| - 1], c[0])
  }

  ghost predicate HasCycle(specs: Specs) {
    exists c :: IsCycle(specs, c)
  }

  predicate Distinct(s: seq<string>) {
    forall i, j :: 0 <= i < j < |s| ==> s[i] != s[j]
  }

  /** The message for cycle `c`: its nodes, then its last node again (the path already
      ends in the node being visited), then the node that closes it. */
  function ReportOf(c: seq<string>): Report
    requires |c| > 0
  {
    Report(c + [c[|c| - 1], c[0]])
  }

  ghost predicate Genuine(specs: Specs, r: Report) {
    exists c :: IsCycle(specs, c) && Distinct(c) && r == ReportOf(c)
  }

  /** Every edge out of a finished agent leads to an agent finished before it. */
  ghost predicate Topological(specs: Specs, order: seq<string>) {
    forall i, v :: 0 <= i < |order| && Edge(specs, order[i], v) ==> v in order[..i]
  }

  /** The edge closes one of the reported cycles: its two ends are the report's last names. */
  ghost predicate Closes(problems: seq<Report>, u: string, v: string) {
    exists r :: r in problems && EndsWith(r, u, v)
  }

  predicate EndsWith(r: Report, u: string, v: string) {
    |r.names| >= 2 && r.names[|r.names| - 2] == u && r.names[|r.names| - 1] == v
  }

  /** The same up to the edges that close a reported cycle. */
  ghost predicate Settled(specs: Specs, order: seq<string>, problems: seq<Report>) {
    forall i, v :: 0 <= i < |order| && Edge(specs, order[i], v) ==> v in order[..i] || Closes(problems, order[i], v)
  }

  /** Some edge of the cycle closes a reported one. */
  ghost predicate Broken(problems: seq<Report>, c: seq<string>)
    requires |c| > 0
  {
    || Closes(problems, c[|c| - 1], c[0])
    || exists i, j :: 0 <= i < j < |c| && j == i + 1 && Closes(problems, c[i], c[j])
  }

  /** A cycle leads from each of its agents to the next and from the last to the first, each
      loaded and each naming the next, another one, among its targets. */
  lemma HasCycleExactly(specs: Specs)
    ensures HasCycle(specs) <==> exists c :: GoesAround(specs, c)
  {
    if c :| IsCycle(specs, c) {
      forall i, j | 0 <= i < j < |c| && j == i + 1 ensures Leads(specs, c[i], c[j]) {
        assert Edge(specs, c[i], c[i + 1]);
      }
      assert GoesAround(specs, c);
    }
    if c :| GoesAround(specs, c) {
      forall i | 0 <= i < |c| - 1 ensures Edge(specs, c[i], c[i + 1]) {
        var j := i + 1;
        assert Leads(specs, c[i], c[j]);
      }
      assert IsCycle(specs, c);
    }
  }

  predicate Leads(specs: Specs, u: string, v: string) {
    u in specs.Keys && v in specs.Keys && v in specs[u] && v != u
  }

  ghost predicate GoesAround(specs: Specs, c: seq<string>) {
    && |c| >= 2
    && (forall i, j :: 0 <= i < j < |c| && j == i + 1 ==> Leads(specs, c[i], c[j]))
    && Leads(specs, c[|c| - 1], c[0])
  }

  /** Along a walk without closing edges each step moves strictly earlier in the order. */
  lemma {:induction false} WalkDescends(specs: Specs, order: seq<string>, problems: seq<Report>, p: seq<string>,
                                        n: nat, k: nat)
    requires Settled(specs, order, problems) && Walk(specs, p)
    requires forall i, j :: 0 <= i < j < |p| && j == i + 1 ==> !Closes(problems, p[i], p[j])
    requires n <= |order| && k < |p| && p[0] in order[..n]
    ensures k < n && p[k] in order[..n - k]
  {
    if k > 0 {
      var m := k - 1;
      WalkDescends(specs, order, problems, p, n, m);
      var i :| 0 <= i < n - m && order[i] == p[m];
      assert Edge(specs, p[m], p[m + 1]);
      assert !Closes(problems, p[m], p[k]);
      assert p[k] in order[..i];
    }
  }

  /** When all agents are settled, every cycle has an edge that closes a reported one. */
  lemma EveryCycleBroken(specs: Specs, order: seq<string>, problems: seq<Report>, c: seq<string>)
    requires Settled(specs, order, problems) && Distinct(order)
    requires forall n :: n in specs ==> n in order
    requires IsCycle(specs, c)
    ensures Broken(problems, c)
  {
    if !Broken(problems, c) {
      var last := |c| - 1;
      assert Edge(specs, c[0], c[0 + 1]);
      var i :| 0 <= i < |order| && order[i] == c[0];
      WalkDescends(specs, order, problems, c, i + 1, last);
    }
  }

  /** A topological order of all loaded agents leaves no room for a cycle. */
  lemma TopologicalIsAcyclic(specs: Specs, order: seq<string>)
    requires Topological(specs, order) && Distinct(order)
    requires forall n :: n in specs ==> n in order
    ensures !HasCycle(specs)
  {
    if c :| IsCycle(specs, c) {
      EveryCycleBroken(specs, order, [], c);
    }
  }

  /** What holds between any two statements of the search, `path` being the chain of
      agents whose visit has started and not ended: the grey agents are exactly the
      agents on `path`, and the black ones are in topological order up to the edges that
      close a reported cycle. */
  ghost predicate Inv(specs: Specs, colour: map<string, Colour>, finished: seq<string>, problems: seq<Report>,
                      path: seq<string>)
  {
    && colour.Keys == specs.Keys
    && Shaded(colour, Grey, path)
    && Shaded(colour, Black, finished)
    && Distinct(path) && Walk(specs, path) && Distinct(finished)
    && (forall r :: r in problems ==> Genuine(specs, r))
    && Settled(specs, finished, problems)
  }

  /** The agents of colour `c` are those listed. */
  ghost predicate Shaded(colour: map<string, Colour>, c: Colour, listed: seq<string>) {
    && (forall n :: n in listed ==> n in colour && colour[n] == c)
    && (forall n :: n in colour && colour[n] == c ==> n in listed)
  }

  /** No agent that is being visited or finished changes colour. */
  ghost predicate Kept(before: map<string, Colour>, after: map<string, Colour>) {
    forall n :: n in before && before[n] != White ==> n in after && after[n] == before[n]
  }

  ghost function Whites(colour: map<string, Colour>): set<string> {
    set n | n in colour && colour[n] == White
  }

  /** A white agent is put on the path. */
  lemma Enter(specs: Specs, colour: map<string, Colour>, finished: seq<string>, problems: seq<Report>,
              path: seq<string>, node: string)
    requires Inv(specs, colour, finished, problems, path)
    requires node in specs && colour[node] == White && Walk(specs, path + [node])
    ensures Inv(specs, colour[node := Grey], finished, problems, path + [node])
    ensures Whites(colour[node := Grey]) < Whites(colour)
  {
    assert node in Whites(colour) && node !in Whites(colour[node := Grey]);
    assert node !in path;
  }

  /** The last agent of the path is finished once its edges lead to finished agents only. */
  lemma Leave(specs: Specs, colour: map<string, Colour>, finished: seq<string>, problems: seq<Report>,
              path: seq<string>, node: string)
    requires Inv(specs, colour, finished, problems, path + [node])
    requires forall v :: Edge(specs, node, v) ==> v in finished || Closes(problems, node, v)
    ensures Inv(specs, colour[node := Black], finished + [node], problems, path)
    ensures Whites(colour[node := Black]) == Whites(colour)
  {
    var full := path + [node];
    assert full[|path|] == node && node in full;
    assert colour[node] == Grey;
    assert Shaded(colour[node := Black], Grey, path) by {
      forall n | n in path ensures n != node {
        var i :| 0 <= i < |path| && path[i] == n;
        assert full[i] == n;
      }
      forall n | n in colour[node := Black] && colour[node := Black][n] == Grey ensures n in path {
        assert n in full && n != node;
      }
    }
    forall i | 0 <= i < |path| - 1
      ensures Edge(specs, path[i], path[i + 1])
    {
      assert Edge(specs, full[i], full[i + 1]);
    }
    assert forall i :: 0 <= i < |path| ==> full[i] == path[i];
    var after := finished + [node];
    forall i, v | 0 <= i < |after| && Edge(specs, after[i], v)
      ensures v in after[..i] || Closes(problems, after[i], v)
    {
      assert after[..i] == finished[..i];
      if i == |finished| {
        assert finished[..i] == finished;
      }
    }
  }

  /** A grey target is on the path, and the path from it on is a cycle. */
  lemma Close(specs: Specs, colour: map<string, Colour>, finished: seq<string>, problems: seq<Report>,
              path: seq<string>, at: nat)
    requires Inv(specs, colour, finished, problems, path) && at < |path|
    requires Edge(specs, path[|path| - 1], path[at])
    ensures Inv(specs, colour, finished, problems + [Report(path[at..] + [path[|path| - 1], path[at]])], path)
    ensures Closes(problems + [Report(path[at..] + [path[|path| - 1], path[at]])], path[|path| - 1], path[at])
  {
    SuffixIsCycle(specs, path, at);
    var r := Report(path[at..] + [path[|path| - 1], path[at]]);
    assert Genuine(specs, r);
    forall s | s in problems + [r] ensures Genuine(specs, s) {
      assert s in problems || s == r;
    }
    MoreClose(problems, problems + [r]);
    assert r in problems + [r] && EndsWith(r, path[|path| - 1], path[at]);
  }

  lemma MoreClose(problems: seq<Report>, more: seq<Report>)
    requires problems <= more
    ensures forall u, v :: Closes(problems, u, v) ==> Closes(more, u, v)
  {
    forall u, v | Closes(problems, u, v) ensures Closes(more, u, v) {
      var r :| r in problems && EndsWith(r, u, v);
      assert r in more;
    }
  }

  class CycleLint {
    const specs: Specs
    const order: seq<string>
    var colour: map<string, Colour>
    var problems: seq<Report>
    /** The black agents in the order in which they were finished. */
    ghost var finished: seq<string>

    constructor (specs: Specs, order: seq<string>)
      requires forall n :: n in order <==> n in specs
      ensures this.specs == specs && this.order == order
      ensures Valid([]) && problems == [] && forall n :: n in specs ==> colour[n] == White
    {
      this.specs := specs;
      this.order := order;
      this.colour := map n | n in specs :: White;
      this.problems := [];
      this.finished := [];
    }

    ghost predicate Valid(path: seq<string>)
      reads this
    {
      Inv(specs, colour, finished, problems, path)
    }

    /** Visiting `node`, the last agent of `path`: afterwards it is black, no colour other
        than white has changed, and no report was lost. Terminates because each visit
        turns a white agent grey. */
    method Visit(node: string, path: seq<string>)
      requires |path| > 0 && path[|path| - 1] == node && node in specs
      requires Valid(path[..|path| - 1]) && colour[node] == White
      requires Walk(specs, path)
      modifies this`colour, this`problems, this`finished
      ensures Valid(path[..|path| - 1])
      ensures colour[node] == Black
      ensures Kept(old(colour), colour)
      ensures old(finished) <= finished
      ensures Whites(colour) < old(Whites(colour))
      ensures old(problems) <= problems
      decreases Whites(colour), 0
    {
      ghost var before := path[..|path| - 1];
      assert path == before + [node];
      Enter(specs, colour, finished, problems, before, node);
      colour := colour[node := Grey];
      ConsiderAll(node, path);
      Leave(specs, colour, finished, problems, before, node);
      colour := colour[node := Black];
      finished := finished + [node];
    }

    /** Every edge out of the agent being visited, in the declared order. */
    method ConsiderAll(node: string, path: seq<string>)
      requires |path| > 0 && path[|path| - 1] == node && node in specs
      requires Valid(path)
      modifies this`colour, this`problems, this`finished
      ensures Valid(path)
      ensures Kept(old(colour), colour)
      ensures Whites(colour) <= old(Whites(colour))
      ensures old(problems) <= problems
      ensures old(finished) <= finished
      ensures forall v :: Edge(specs, node, v) ==> v in finished || Closes(problems, node, v)
      decreases Whites(colour), 2
    {
      for i := 0 to |specs[node]|
        invariant Valid(path)
        invariant Whites(colour) <= old(Whites(colour))
        invariant old(problems) <= problems
        invariant old(finished) <= finished
        invariant Kept(old(colour), colour)
        invariant forall v :: v in specs[node][..i] && Edge(specs, node, v) ==>
                    v in finished || Closes(problems, node, v)
      {
        ghost var earlier := problems;
        Consider(node, specs[node][i], path);
        MoreClose(earlier, problems);
        assert specs[node][..i + 1] == specs[node][..i] + [specs[node][i]];
      }
      assert specs[node][..|specs[node]|] == specs[node];
    }

    /** One edge out of the agent being visited: a grey target closes a cycle, a white one
        is visited, a black one is done already. */
    method Consider(node: string, target: string, path: seq<string>)
      requires |path| > 0 && path[|path| - 1] == node && node in specs && target in specs[node]
      requires Valid(path)
      modifies this`colour, this`problems, this`finished
      ensures Valid(path)
      ensures Kept(old(colour), colour)
      ensures Whites(colour) <= old(Whites(colour))
      ensures old(problems) <= problems
      ensures Edge(specs, node, target) ==> target in finished || Closes(problems, node, target)
      ensures old(finished) <= finished
      ensures Edge(specs, node, target) && old(colour[target]) == Grey ==> |problems| > |old(problems)|
      decreases Whites(colour), 1
    {
      if target == node || target !in specs {
        return;
      }
      assert Edge(specs, node, target);
      if colour[target] == Grey {
        var cycle := [node, target];
        if target in path {
          var at := IndexOf(path, target);
          cycle := path[at..] + cycle;
          Close(specs, colour, finished, problems, path, at);
        }
        problems := problems + [Report(cycle)];
      } else if colour[target] == White {
        assert (path + [target])[..|path|] == path;
        Visit(target, path + [target]);
      }
    }

    /** The lint reports a problem exactly when the delegation graph has a cycle; everything
        it reports is a cycle of distinct agents; and every cycle has an edge that closes a
        reported one. */
    method Run() returns (reported: seq<Report>)
      requires Valid([]) && problems == [] && forall n :: n in specs ==> colour[n] == White
      requires forall n :: n in order <==> n in specs
      modifies this`colour, this`problems, this`finished
      ensures reported == problems
      ensures reported != [] <==> HasCycle(specs)
      ensures forall r :: r in reported ==> Genuine(specs, r)
      ensures forall c :: IsCycle(specs, c) ==> Broken(reported, c)
    {
      for i := 0 to |order|
        invariant Valid([])
        invariant forall j :: 0 <= j < i ==> colour[order[j]] == Black
      {
        var node := order[i];
        if colour[node] == White {
          assert [node][..0] == [];
          Visit(node, [node]);
        }
      }
      reported := problems;
      forall c | IsCycle(specs, c) ensures Broken(problems, c) {
        EveryCycleBroken(specs, finished, problems, c);
      }
      if problems != [] {
        assert Genuine(specs, problems[0]);
      }
    }
  }

  /** The part of the current path from a grey target on is a cycle. */
  lemma SuffixIsCycle(specs: Specs, path: seq<string>, at: nat)
    requires Walk(specs, path) && Distinct(path) && at < |path|
    requires Edge(specs, path[|path| - 1], path[at])
    ensures IsCycle(specs, path[at..]) && Distinct(path[at..])
    ensures path[at..] + [path[|path| - 1], path[at]] == ReportOf(path[at..]).names
  {
    var c := path[at..];
    forall i | 0 <= i < |c| - 1
      ensures Edge(specs, c[i], c[i + 1])
    {
      assert Edge(specs, path[at + i], path[at + i + 1]);
    }
  }

  /** Position of the first occurrence. */
  method IndexOf(s: seq<string>, x: string) returns (at: nat)
    requires x in s
    ensures at < |s| && s[at] == x && x !in s[..at]
  {
    at := 0;
    while s[at] != x
      invariant at < |s| && x !in s[..at] && x in s
      decreases |s| - at
    {
      at := at + 1;
    }
  }
}
