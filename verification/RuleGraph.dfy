/**
  Stratification of a rule bundle: cycle detection in the rule dependency graph by recursive
  depth-first search, as the policy validator does it.
*/
module RuleGraph {
  type Node = string
  datatype Edge = Edge(to: Node, negated: bool)
  type Graph = map<Node, seq<Edge>>

  function Adj(g: Graph, u: Node): seq<Edge> { if u in g then g[u] else [] }

  ghost predicate HasEdge(g: Graph, u: Node, v: Node) {
    exists i :: 0 <= i < |Adj(g, u)| && Adj(g, u)[i].to == v
  }

  ghost predicate HasNegatedEdge(g: Graph, u: Node, v: Node) {
    exists i :: 0 <= i < |Adj(g, u)| && Adj(g, u)[i] == Edge(v, true)
  }

  ghost predicate Walk(g: Graph, w: seq<Node>) {
    forall i, j {:trigger HasEdge(g, w[i], w[j])} :: 0 <= i && j == i + 1 < |w| ==> HasEdge(g, w[i], w[j])
  }

  ghost predicate ClosedWalk(g: Graph, w: seq<Node>) {
    |w| >= 2 && w[0] == w[|w| - 1] && Walk(g, w)
  }

  ghost predicate Acyclic(g: Graph) { forall w :: !ClosedWalk(g, w) }

  ghost predicate NegatedOn(g: Graph, w: seq<Node>) {
    exists i :: 0 <= i < |w| - 1 && HasNegatedEdge(g, w[i], w[i + 1])
  }

  datatype Finding = Finding(rule: Node, cycle: seq<Node>, negated: bool)

  /** The finding reports a real cycle, and calls it non-stratifiable exactly when a step of it is negated. */
  ghost predicate Genuine(g: Graph, f: Finding) {
    ClosedWalk(g, f.cycle) && (f.negated <==> NegatedOn(g, f.cycle))
  }

  /** Every reference in a rule body is to a rule of the bundle. */
  ghost predicate Bundle(g: Graph, nodes: set<Node>) {
    g.Keys <= nodes && forall u, i :: u in g && 0 <= i < |g[u]| ==> g[u][i].to in nodes
  }

  // ---------------------------------------------------------------------------------------------
  // A rank that falls along every edge excludes cycles
  // ---------------------------------------------------------------------------------------------

  ghost predicate Ranked(g: Graph, done: set<Node>, rank: map<Node, nat>) {
    && done <= rank.Keys
    && forall u, i :: u in done && 0 <= i < |Adj(g, u)| ==>
         Adj(g, u)[i].to in done && rank[Adj(g, u)[i].to] < rank[u]
  }

  lemma {:induction false} WalkDescends(g: Graph, nodes: set<Node>, rank: map<Node, nat>, w: seq<Node>)
    requires Ranked(g, nodes, rank) && |w| >= 1 && w[0] in nodes && Walk(g, w)
    ensures w[|w| - 1] in nodes && rank[w[|w| - 1]] + |w| - 1 <= rank[w[0]]
  {
    if |w| > 1 {
      assert HasEdge(g, w[0], w[1]);
      WalkDescends(g, nodes, rank, w[1..]);
    }
  }

  lemma RankedIsAcyclic(g: Graph, nodes: set<Node>, rank: map<Node, nat>)
    requires Bundle(g, nodes) && Ranked(g, nodes, rank)
    ensures Acyclic(g)
  {
    forall w ensures !ClosedWalk(g, w) {
      if ClosedWalk(g, w) {
        assert HasEdge(g, w[0], w[1]);
        WalkDescends(g, nodes, rank, w);
      }
    }
  }

  // ---------------------------------------------------------------------------------------------
  // The search
  // ---------------------------------------------------------------------------------------------

  datatype Colour = Grey | Black

  /** Unvisited rules are absent; `stack` is the path to the rule being explored. */
  datatype Search = Search(visited: map<Node, Colour>, stack: seq<Node>, findings: seq<Finding>)

  const START := Search(map[], [], [])

  /** Where `v` first occurs; 0 when it does not occur. */
  function FirstIndex(stack: seq<Node>, v: Node): (idx: nat)
    ensures v in stack ==> idx < |stack| && stack[idx] == v && v !in stack[..idx]
    ensures v !in stack ==> idx == 0
  {
    if v !in stack then 0
    else if stack[0] == v then 0
    else
      assert stack == [stack[0]] + stack[1..];
      var k := FirstIndex(stack[1..], v);
      assert stack[..k + 1] == [stack[0]] + stack[1..][..k];
      k + 1
  }

  /** What the edge from `u`, on top of the stack, to the grey rule `v` gets reported as. */
  ghost function ReportOf(g: Graph, stack: seq<Node>, u: Node, v: Node): Finding {
    var cycle := stack[FirstIndex(stack, v)..] + [v];
    Finding(u, cycle, NegatedOn(g, cycle))
  }

  /** What a search never does. */
  ghost predicate Grows(nodes: set<Node>, s: Search, r: (Search, bool)) {
    && s.visited.Keys <= r.0.visited.Keys <= nodes
    && s.findings <= r.0.findings && (r.1 <==> r.0.findings != s.findings)
    && (!r.1 ==> r.0.stack == s.stack)
  }

  /** The depth-first search from `u`; the flag tells whether a cycle was reported. */
  ghost function Explore(g: Graph, nodes: set<Node>, s: Search, u: Node): (r: (Search, bool))
    requires Bundle(g, nodes) && s.visited.Keys <= nodes && u in nodes && u !in s.visited
    ensures Grows(nodes, s, r) && u in r.0.visited
    decreases nodes - s.visited.Keys, 0, 0
  {
    var s1 := Search(s.visited[u := Grey], s.stack + [u], s.findings);
    assert u in nodes - s.visited.Keys && u !in nodes - s1.visited.Keys;
    var (s2, found) := ExploreEdges(g, nodes, s1, u, 0);
    if found then (s2, true)
    else (Search(s2.visited[u := Black], s2.stack[..|s2.stack| - 1], s2.findings), false)
  }

  /** The references of `u` from the i-th on. */
  ghost function ExploreEdges(g: Graph, nodes: set<Node>, s: Search, u: Node, i: nat): (r: (Search, bool))
    requires Bundle(g, nodes) && s.visited.Keys <= nodes && i <= |Adj(g, u)|
    ensures Grows(nodes, s, r)
    decreases nodes - s.visited.Keys, 1, |Adj(g, u)| - i
  {
    if i == |Adj(g, u)| then (s, false) else
    var v := Adj(g, u)[i].to;
    if v !in s.visited then
      var (s1, found) := Explore(g, nodes, s, v);
      if found then (s1, true) else ExploreEdges(g, nodes, s1, u, i + 1)
    else if s.visited[v] == Grey then (s.(findings := s.findings + [ReportOf(g, s.stack, u, v)]), true)
    else ExploreEdges(g, nodes, s, u, i + 1)
  }

  /** Every rule of the bundle in turn, from the i-th on. */
  ghost function ExploreAll(g: Graph, rules: seq<Node>, s: Search, i: nat): Search
    requires Bundle(g, Nodes(rules)) && s.visited.Keys <= Nodes(rules) && i <= |rules|
    decreases |rules| - i
  {
    if i == |rules| then s
    else if rules[i] in s.visited then ExploreAll(g, rules, s, i + 1)
    else ExploreAll(g, rules, Explore(g, Nodes(rules), s, rules[i]).0, i + 1)
  }

  function Nodes(rules: seq<Node>): set<Node> { set u | u in rules }

  // ---------------------------------------------------------------------------------------------
  // No finding means no cycle
  // ---------------------------------------------------------------------------------------------

  ghost function Blacks(visited: map<Node, Colour>): set<Node> { set u | u in visited && visited[u] == Black }

  ghost predicate NoRepeats(stack: seq<Node>) { forall i, j :: 0 <= i < j < |stack| ==> stack[i] != stack[j] }

  /** The grey rules are those on the stack, and none is on it twice; findings do not change that. */
  ghost predicate GreyStack(s: Search) {
    NoRepeats(s.stack) && forall u :: u in s.visited && s.visited[u] == Grey <==> u in s.stack
  }

  /** What holds until the first finding: finished rules are ranked. */
  ghost predicate CleanSearch(g: Graph, s: Search, rank: map<Node, nat>, finished: nat) {
    && s.findings == [] && GreyStack(s)
    && Ranked(g, Blacks(s.visited), rank)
    && (forall u :: u in rank ==> u in Blacks(s.visited) && rank[u] < finished)
  }

  lemma FewerLeft(nodes: set<Node>, before: set<Node>, after: set<Node>, u: Node)
    requires u in nodes && u !in before && before <= after && u in after
    ensures nodes - after < nodes - before
  {
    assert u in nodes - before;
  }

  /** The state in which the references of `u` are followed. */
  ghost function Entered(s: Search, u: Node): Search { Search(s.visited[u := Grey], s.stack + [u], s.findings) }

  ghost function Left(s: Search, stack: seq<Node>, u: Node): Search {
    Search(s.visited[u := Black], stack, s.findings)
  }

  lemma EnterGrey(s: Search, u: Node)
    requires GreyStack(s) && u !in s.visited
    ensures GreyStack(Entered(s, u))
  {
  }

  lemma LeaveGrey(s: Search, stack: seq<Node>, u: Node)
    requires GreyStack(s) && s.stack == stack + [u]
    ensures GreyStack(Left(s, stack, u)) && u in s.visited && s.visited[u] == Grey
  {
    assert s.stack[|stack|] == u && u in s.stack;
    PoppedStack(stack, u);
  }

  lemma PoppedStack(stack: seq<Node>, u: Node)
    requires NoRepeats(stack + [u])
    ensures NoRepeats(stack) && u !in stack && forall w :: w in stack + [u] <==> w in stack || w == u
  {
    var all := stack + [u];
    assert all[|stack|] == u;
    forall i | 0 <= i < |stack| ensures stack[i] != u { assert all[i] == stack[i] && all[i] != all[|stack|]; }
    forall i, j | 0 <= i < j < |stack| ensures stack[i] != stack[j] { assert all[i] == stack[i] && all[j] == stack[j]; }
  }

  lemma EnterRule(g: Graph, s: Search, rank: map<Node, nat>, finished: nat, u: Node)
    requires CleanSearch(g, s, rank, finished) && u !in s.visited
    ensures CleanSearch(g, Entered(s, u), rank, finished) && Blacks(Entered(s, u).visited) == Blacks(s.visited)
  {
    EnterGrey(s, u);
    assert Blacks(Entered(s, u).visited) == Blacks(s.visited);
  }

  lemma LeaveRule(g: Graph, s: Search, stack: seq<Node>, rank: map<Node, nat>, finished: nat, u: Node)
    requires CleanSearch(g, s, rank, finished) && s.stack == stack + [u]
    requires forall i :: 0 <= i < |Adj(g, u)| ==> Adj(g, u)[i].to in Blacks(s.visited)
    ensures CleanSearch(g, Left(s, stack, u), rank[u := finished], finished + 1)
    ensures Blacks(Left(s, stack, u).visited) == Blacks(s.visited) + {u}
  {
    LeaveGrey(s, stack, u);
    assert Blacks(Left(s, stack, u).visited) == Blacks(s.visited) + {u};
    RankLast(g, Blacks(s.visited), rank, finished, u);
  }

  /** A rule whose references are all ranked may be ranked behind them. */
  lemma RankLast(g: Graph, done: set<Node>, rank: map<Node, nat>, finished: nat, u: Node)
    requires Ranked(g, done, rank) && u !in done && (forall v :: v in rank ==> v in done && rank[v] < finished)
    requires forall i :: 0 <= i < |Adj(g, u)| ==> Adj(g, u)[i].to in done
    ensures Ranked(g, done + {u}, rank[u := finished])
  {
  }

  /** Without a finding the search stays clean, and what was finished stays finished. */
  ghost predicate StaysClean(g: Graph, s: Search, r: (Search, bool), rank: map<Node, nat>, finished: nat) {
    !r.1 ==> CleanSearch(g, r.0, rank, finished) && Blacks(s.visited) <= Blacks(r.0.visited)
  }

  lemma {:induction false} ExploreSound(g: Graph, nodes: set<Node>, s: Search, u: Node, rank: map<Node, nat>,
                                        finished: nat)
    returns (rank': map<Node, nat>, finished': nat)
    requires Bundle(g, nodes) && s.visited.Keys <= nodes && u in nodes && u !in s.visited
    requires CleanSearch(g, s, rank, finished)
    ensures StaysClean(g, s, Explore(g, nodes, s, u), rank', finished')
    ensures !Explore(g, nodes, s, u).1 ==> u in Blacks(Explore(g, nodes, s, u).0.visited)
    decreases nodes - s.visited.Keys, 0, 0
  {
    var s1 := Entered(s, u);
    EnterRule(g, s, rank, finished, u);
    FewerLeft(nodes, s.visited.Keys, s1.visited.Keys, u);
    rank', finished' := EdgesSound(g, nodes, s1, u, 0, rank, finished);
    var (s2, found) := ExploreEdges(g, nodes, s1, u, 0);
    if !found {
      LeaveRule(g, s2, s.stack, rank', finished', u);
      rank', finished' := rank'[u := finished'], finished' + 1;
      assert s2.stack[..|s2.stack| - 1] == s.stack;
    }
  }

  lemma {:induction false} EdgesSound(g: Graph, nodes: set<Node>, s: Search, u: Node, i: nat,
                                      rank: map<Node, nat>, finished: nat)
    returns (rank': map<Node, nat>, finished': nat)
    requires Bundle(g, nodes) && s.visited.Keys <= nodes && i <= |Adj(g, u)|
    requires CleanSearch(g, s, rank, finished) && s.stack != [] && s.stack[|s.stack| - 1] == u
    ensures StaysClean(g, s, ExploreEdges(g, nodes, s, u, i), rank', finished')
    ensures !ExploreEdges(g, nodes, s, u, i).1 ==>
              forall k :: i <= k < |Adj(g, u)| ==> Adj(g, u)[k].to in Blacks(ExploreEdges(g, nodes, s, u, i).0.visited)
    decreases nodes - s.visited.Keys, 1, |Adj(g, u)| - i
  {
    rank', finished' := rank, finished;
    if i < |Adj(g, u)| {
      var v := Adj(g, u)[i].to;
      if v !in s.visited {
        rank', finished' := ExploreSound(g, nodes, s, v, rank, finished);
        var (s1, found) := Explore(g, nodes, s, v);
        if !found { rank', finished' := EdgesSound(g, nodes, s1, u, i + 1, rank', finished'); }
      } else if s.visited[v] == Black {
        rank', finished' := EdgesSound(g, nodes, s, u, i + 1, rank, finished);
      }
    }
  }

  /** Between two rules of the outer loop. */
  ghost predicate Between(g: Graph, s: Search, rank: map<Node, nat>, finished: nat) {
    s.findings == [] ==> CleanSearch(g, s, rank, finished) && s.stack == []
  }

  lemma {:induction false} AllSound(g: Graph, rules: seq<Node>, s: Search, i: nat, rank: map<Node, nat>, finished: nat)
    returns (rank': map<Node, nat>, finished': nat)
    requires Bundle(g, Nodes(rules)) && s.visited.Keys <= Nodes(rules) && i <= |rules| && Between(g, s, rank, finished)
    requires forall k :: 0 <= k < i ==> rules[k] in s.visited
    ensures var r := ExploreAll(g, rules, s, i);
            Between(g, r, rank', finished') && Nodes(rules) <= r.visited.Keys <= Nodes(rules)
    decreases |rules| - i
  {
    rank', finished' := rank, finished;
    if i < |rules| {
      var s1 := s;
      if rules[i] !in s.visited {
        s1 := Explore(g, Nodes(rules), s, rules[i]).0;
        if s.findings == [] { rank', finished' := ExploreSound(g, Nodes(rules), s, rules[i], rank, finished); }
      }
      rank', finished' := AllSound(g, rules, s1, i + 1, rank', finished');
    }
  }

  lemma SilentIsAcyclic(g: Graph, rules: seq<Node>)
    requires Bundle(g, Nodes(rules)) && ExploreAll(g, rules, START, 0).findings == []
    ensures Acyclic(g)
  {
    assert Blacks(map[]) == {};
    var rank, finished := AllSound(g, rules, START, 0, map[], 0);
    assert Blacks(ExploreAll(g, rules, START, 0).visited) == Nodes(rules);
    RankedIsAcyclic(g, Nodes(rules), rank);
  }

  // ---------------------------------------------------------------------------------------------
  // What a finding is worth.  A search that reports a cycle leaves its path on the stack, and the next
  // search starts on top of it.
  // ---------------------------------------------------------------------------------------------

  /**
    A search that began on the stack `before` has reported `f` with `stack`: from its root on, the stack and
    the step to the last rule of the cycle are real.
  */
  ghost predicate Reported(g: Graph, before: seq<Node>, stack: seq<Node>, f: Finding) {
    && |before| < |stack| && before == stack[..|before|] && NoRepeats(stack)
    && f.cycle != [] && Target(f) in stack
    && f == ReportOf(g, stack, stack[|stack| - 1], Target(f))
    && Walk(g, stack[|before|..] + [Target(f)])
  }

  /** The rule on which the reported cycle closes. */
  ghost function Target(f: Finding): Node
    requires f.cycle != []
  {
    f.cycle[|f.cycle| - 1]
  }

  /** The rule at which the search began that took the stack from `before` to `stack`. */
  ghost function Root(before: seq<Node>, stack: seq<Node>): Node
    requires |before| < |stack|
  {
    stack[|before|]
  }

  /** From the first occurrence of `v` on, the stack leads to `root`. */
  ghost predicate LeadsTo(g: Graph, stack: seq<Node>, v: Node, root: Node) {
    v in stack ==> Walk(g, stack[FirstIndex(stack, v)..] + [root])
  }

  lemma WalkConcat(g: Graph, a: seq<Node>, b: seq<Node>)
    requires b != []
    ensures Walk(g, a + b) <==> Walk(g, a + [b[0]]) && Walk(g, b)
  {
    var w, front := a + b, a + [b[0]];
    if Walk(g, w) {
      forall i, j | 0 <= i && j == i + 1 < |front| ensures HasEdge(g, front[i], front[j]) {
        assert HasEdge(g, w[i], w[j]);
      }
      forall i, j | 0 <= i && j == i + 1 < |b| ensures HasEdge(g, b[i], b[j]) {
        assert HasEdge(g, w[|a| + i], w[|a| + j]);
      }
    }
    if Walk(g, front) && Walk(g, b) {
      forall i, j | 0 <= i && j == i + 1 < |w| ensures HasEdge(g, w[i], w[j]) {
        if j <= |a| { assert HasEdge(g, front[i], front[j]); } else { assert HasEdge(g, b[i - |a|], b[j - |a|]); }
      }
    }
  }

  lemma FirstIndexBelow(stack: seq<Node>, n: nat, v: Node)
    requires n <= |stack| && NoRepeats(stack) && v in stack
    ensures v in stack[..n] <==> FirstIndex(stack, v) < n
    ensures v in stack[..n] ==> FirstIndex(stack[..n], v) == FirstIndex(stack, v)
  {
    var k := FirstIndex(stack, v);
    if k < n { assert stack[..n][k] == v; }
    if v in stack[..n] { assert stack[FirstIndex(stack[..n], v)] == v; }
  }

  /**
    The exact worth of a finding: the reported cycle is real if and only if it closes within the path of its
    own search, or the part of the old stack that it includes leads to the root of that search.
  */
  lemma GenuineExactly(g: Graph, before: seq<Node>, stack: seq<Node>, f: Finding)
    requires Reported(g, before, stack, f)
    ensures Genuine(g, f) <==> LeadsTo(g, before, Target(f), Root(before, stack))
  {
    var v, n, k := Target(f), |before|, FirstIndex(stack, Target(f));
    FirstIndexBelow(stack, n, v);
    CycleWalks(g, stack, n, k, v);
    assert f.cycle == stack[k..] + [v] && f.cycle[0] == v;
  }

  lemma ReportCloses(g: Graph, before: seq<Node>, stack: seq<Node>, f: Finding)
    requires Reported(g, before, stack, f)
    ensures ClosesReally(g, f)
  {
    var path := stack[|before|..] + [Target(f)];
    assert HasEdge(g, path[|path| - 2], path[|path| - 1]);
  }

  /** If the stack is a walk from position `n` on, the cycle from `k` on is one exactly when what precedes `n` fits. */
  lemma CycleWalks(g: Graph, stack: seq<Node>, n: nat, k: nat, v: Node)
    requires n < |stack| && k < |stack| && Walk(g, stack[n..] + [v])
    ensures Walk(g, stack[k..] + [v]) <==> (k < n ==> Walk(g, stack[..n][k..] + [stack[n]]))
  {
    var path := stack[n..] + [v];
    if k < n {
      assert stack[k..] + [v] == stack[..n][k..] + path;
      WalkConcat(g, stack[..n][k..], path);
    } else {
      assert path == stack[n..k] + (stack[k..] + [v]);
      WalkConcat(g, stack[n..k], stack[k..] + [v]);
    }
  }

  /** The rule refers to the last rule of the reported cycle: at least the closing step is real. */
  ghost predicate ClosesReally(g: Graph, f: Finding) {
    |f.cycle| >= 2 && f.cycle[|f.cycle| - 2] == f.rule && HasEdge(g, f.rule, Target(f))
  }

  /** A search whose path starts at position `base` of the stack reports what `Reported` says. */
  ghost predicate ReportsFrom(g: Graph, s: Search, base: nat, r: (Search, bool)) {
    && GreyStack(r.0) && s.stack <= r.0.stack
    && (r.1 ==> && base <= |s.stack| && r.0.findings != []
                && r.0.findings == s.findings + [r.0.findings[|r.0.findings| - 1]]
                && Reported(g, s.stack[..base], r.0.stack, r.0.findings[|r.0.findings| - 1]))
  }

  /** `u` is the root of the search, or the rule on top of the stack refers to it. */
  ghost predicate Follows(g: Graph, stack: seq<Node>, base: nat, u: Node) {
    base == |stack| || (base < |stack| && Walk(g, stack[base..]) && HasEdge(g, stack[|stack| - 1], u))
  }

  lemma {:induction false} ExploreReports(g: Graph, nodes: set<Node>, s: Search, base: nat, u: Node)
    requires Bundle(g, nodes) && s.visited.Keys <= nodes && u in nodes && u !in s.visited
    requires GreyStack(s) && Follows(g, s.stack, base, u)
    ensures ReportsFrom(g, s, base, Explore(g, nodes, s, u))
    decreases nodes - s.visited.Keys, 0, 0
  {
    var s1 := Entered(s, u);
    EnterGrey(s, u);
    PathGrows(g, s.stack, base, u);
    FewerLeft(nodes, s.visited.Keys, s1.visited.Keys, u);
    EdgesReport(g, nodes, s1, base, u, 0);
    AfterReferences(g, s, base, u, ExploreEdges(g, nodes, s1, u, 0));
  }

  lemma AfterReferences(g: Graph, s: Search, base: nat, u: Node, r: (Search, bool))
    requires ReportsFrom(g, Entered(s, u), base, r) && base <= |s.stack| && (!r.1 ==> r.0.stack == s.stack + [u])
    ensures ReportsFrom(g, s, base, if r.1 then r else (Left(r.0, r.0.stack[..|r.0.stack| - 1], u), false))
  {
    if r.1 {
      assert Entered(s, u).stack[..base] == s.stack[..base];
    } else {
      LeaveGrey(r.0, s.stack, u);
      assert r.0.stack[..|r.0.stack| - 1] == s.stack;
    }
  }

  lemma PathGrows(g: Graph, stack: seq<Node>, base: nat, u: Node)
    requires Follows(g, stack, base, u)
    ensures Walk(g, (stack + [u])[base..])
  {
    var w := (stack + [u])[base..];
    forall i, j | 0 <= i && j == i + 1 < |w| ensures HasEdge(g, w[i], w[j]) {
      if j < |w| - 1 { assert HasEdge(g, stack[base..][i], stack[base..][j]); }
    }
  }

  lemma {:induction false} EdgesReport(g: Graph, nodes: set<Node>, s: Search, base: nat, u: Node, i: nat)
    requires Bundle(g, nodes) && s.visited.Keys <= nodes && i <= |Adj(g, u)|
    requires GreyStack(s) && base < |s.stack| && s.stack[|s.stack| - 1] == u && Walk(g, s.stack[base..])
    ensures ReportsFrom(g, s, base, ExploreEdges(g, nodes, s, u, i))
    decreases nodes - s.visited.Keys, 1, |Adj(g, u)| - i
  {
    if i < |Adj(g, u)| {
      var v := Adj(g, u)[i].to;
      assert HasEdge(g, u, v);
      if v !in s.visited {
        ExploreReports(g, nodes, s, base, v);
        var (s1, found) := Explore(g, nodes, s, v);
        if !found { EdgesReport(g, nodes, s1, base, u, i + 1); }
      } else if s.visited[v] == Grey {
        BackReference(g, s, base, u, v);
        ReportAdded(g, s, base, ReportOf(g, s.stack, u, v));
      } else {
        EdgesReport(g, nodes, s, base, u, i + 1);
      }
    }
  }

  lemma ReportAdded(g: Graph, s: Search, base: nat, f: Finding)
    requires GreyStack(s) && base <= |s.stack| && Reported(g, s.stack[..base], s.stack, f)
    ensures ReportsFrom(g, s, base, (s.(findings := s.findings + [f]), true))
  {
    var s' := s.(findings := s.findings + [f]);
    assert GreyStack(s') && s'.findings[|s'.findings| - 1] == f;
  }

  /** The reference from the top of the stack back into it is reported. */
  lemma BackReference(g: Graph, s: Search, base: nat, u: Node, v: Node)
    requires GreyStack(s) && base < |s.stack| && s.stack[|s.stack| - 1] == u && Walk(g, s.stack[base..])
    requires HasEdge(g, u, v) && v in s.visited && s.visited[v] == Grey
    ensures Reported(g, s.stack[..base], s.stack, ReportOf(g, s.stack, u, v))
  {
    PathGrows(g, s.stack, base, v);
    assert (s.stack + [v])[base..] == s.stack[base..] + [v];
    assert v in s.stack;
  }

  /** The stack at the start, and after every search that reported something. */
  ghost function Stacks(g: Graph, rules: seq<Node>, s: Search, i: nat): (r: seq<seq<Node>>)
    requires Bundle(g, Nodes(rules)) && s.visited.Keys <= Nodes(rules) && i <= |rules|
    ensures r != [] && r[0] == s.stack
    decreases |rules| - i
  {
    if i == |rules| then [s.stack]
    else if rules[i] in s.visited then Stacks(g, rules, s, i + 1)
    else
      var (s1, found) := Explore(g, Nodes(rules), s, rules[i]);
      if found then [s.stack] + Stacks(g, rules, s1, i + 1) else Stacks(g, rules, s1, i + 1)
  }

  /** Finding by finding: the stack before the search, the stack after it, and what it reported. */
  ghost predicate AllReported(g: Graph, stacks: seq<seq<Node>>, fs: seq<Finding>) {
    |stacks| == |fs| + 1 && forall k {:trigger fs[k]} :: 0 <= k < |fs| ==> Reported(g, stacks[k], stacks[k + 1], fs[k])
  }

  lemma {:induction false} AllReports(g: Graph, rules: seq<Node>, s: Search, i: nat) returns (fs: seq<Finding>)
    requires Bundle(g, Nodes(rules)) && s.visited.Keys <= Nodes(rules) && i <= |rules| && GreyStack(s)
    ensures ExploreAll(g, rules, s, i).findings == s.findings + fs && AllReported(g, Stacks(g, rules, s, i), fs)
    decreases |rules| - i
  {
    fs := [];
    if i < |rules| {
      if rules[i] in s.visited {
        fs := AllReports(g, rules, s, i + 1);
      } else {
        ExploreReports(g, Nodes(rules), s, |s.stack|, rules[i]);
        var (s1, found) := Explore(g, Nodes(rules), s, rules[i]);
        fs := AllReports(g, rules, s1, i + 1);
        if found { fs := OneMore(g, s, s1, Stacks(g, rules, s1, i + 1), fs); }
      }
    }
  }

  lemma OneMore(g: Graph, s: Search, s1: Search, stacks: seq<seq<Node>>, rest: seq<Finding>) returns (fs: seq<Finding>)
    requires ReportsFrom(g, s, |s.stack|, (s1, true)) && AllReported(g, stacks, rest) && stacks[0] == s1.stack
    ensures s1.findings + rest == s.findings + fs && AllReported(g, [s.stack] + stacks, fs)
  {
    var f := s1.findings[|s1.findings| - 1];
    assert s.stack[..|s.stack|] == s.stack;
    ConsReported(g, s.stack, stacks, f, rest);
    fs := [f] + rest;
    assert s1.findings + rest == s.findings + [f] + rest == s.findings + fs;
  }

  lemma ConsReported(g: Graph, before: seq<Node>, stacks: seq<seq<Node>>, f: Finding, fs: seq<Finding>)
    requires AllReported(g, stacks, fs) && Reported(g, before, stacks[0], f)
    ensures AllReported(g, [before] + stacks, [f] + fs)
  {
    var all, findings := [before] + stacks, [f] + fs;
    forall k | 0 <= k < |findings| ensures Reported(g, all[k], all[k + 1], findings[k]) {
      if k > 0 { assert Reported(g, stacks[k - 1], stacks[k], fs[k - 1]); }
    }
  }

  /** The rule on top of the stack before the j-th reporting search refers to the root of that search. */
  ghost predicate Joined(g: Graph, stacks: seq<seq<Node>>, j: nat)
    requires j + 1 < |stacks|
  {
    && 0 < |stacks[j]| < |stacks[j + 1]|
    && HasEdge(g, stacks[j][|stacks[j]| - 1], stacks[j + 1][|stacks[j]|])
  }

  /** Every search up to the k-th that started when `v` was already on the stack was started where the stack leads. */
  ghost predicate JoinedSince(g: Graph, stacks: seq<seq<Node>>, k: nat, v: Node)
    requires k + 1 < |stacks|
  {
    forall j {:trigger Joined(g, stacks, j)} :: 0 <= j <= k && v in stacks[j] ==> Joined(g, stacks, j)
  }

  lemma ReportedAt(g: Graph, stacks: seq<seq<Node>>, fs: seq<Finding>, k: nat)
    requires AllReported(g, stacks, fs) && k < |fs|
    ensures Reported(g, stacks[k], stacks[k + 1], fs[k])
  {
  }

  /** The same condition, from one search to the next. */
  lemma {:induction false} LeadsStepwise(g: Graph, stacks: seq<seq<Node>>, fs: seq<Finding>, k: nat, v: Node)
    requires AllReported(g, stacks, fs) && stacks[0] == [] && k < |fs| && |stacks[k]| < |stacks[k + 1]|
    ensures LeadsTo(g, stacks[k], v, Root(stacks[k], stacks[k + 1])) <==> JoinedSince(g, stacks, k, v)
  {
    if v in stacks[k] {
      ReportedAt(g, stacks, fs, k - 1);
      LeadsStepwise(g, stacks, fs, k - 1, v);
      LeadsOneMore(g, stacks, k, Target(fs[k - 1]), v);
    } else {
      NotBefore(g, stacks, fs, k, v);
    }
  }

  lemma LeadsOneMore(g: Graph, stacks: seq<seq<Node>>, k: nat, target: Node, v: Node)
    requires 0 < k && k + 1 < |stacks| && v in stacks[k] && |stacks[k - 1]| < |stacks[k]| < |stacks[k + 1]|
    requires stacks[k - 1] == stacks[k][..|stacks[k - 1]|] && NoRepeats(stacks[k])
    requires Walk(g, stacks[k][|stacks[k - 1]|..] + [target])
    requires LeadsTo(g, stacks[k - 1], v, Root(stacks[k - 1], stacks[k])) <==> JoinedSince(g, stacks, k - 1, v)
    ensures LeadsTo(g, stacks[k], v, Root(stacks[k], stacks[k + 1])) <==> JoinedSince(g, stacks, k, v)
  {
    LeadsOn(g, stacks[k - 1], stacks[k], target, v, Root(stacks[k], stacks[k + 1]));
    JoinedMore(g, stacks, k, v);
  }

  lemma JoinedMore(g: Graph, stacks: seq<seq<Node>>, k: nat, v: Node)
    requires 0 < k && k + 1 < |stacks| && v in stacks[k]
    ensures JoinedSince(g, stacks, k, v) <==> JoinedSince(g, stacks, k - 1, v) && Joined(g, stacks, k)
  {
  }

  /** Stacks only grow. */
  lemma {:induction false} NotBefore(g: Graph, stacks: seq<seq<Node>>, fs: seq<Finding>, k: nat, v: Node)
    requires AllReported(g, stacks, fs) && k < |fs| && v !in stacks[k]
    ensures forall j :: 0 <= j <= k ==> v !in stacks[j]
  {
    if k > 0 {
      ReportedAt(g, stacks, fs, k - 1);
      NotBefore(g, stacks, fs, k - 1, v);
    }
  }

  lemma LeadsOn(g: Graph, before: seq<Node>, stack: seq<Node>, target: Node, v: Node, root: Node)
    requires |before| < |stack| && before == stack[..|before|] && NoRepeats(stack) && v in stack
    requires Walk(g, stack[|before|..] + [target])
    ensures LeadsTo(g, stack, v, root) <==>
            LeadsTo(g, before, v, Root(before, stack)) && HasEdge(g, stack[|stack| - 1], root)
  {
    var n, k := |before|, FirstIndex(stack, v);
    FirstIndexBelow(stack, n, v);
    OwnPath(g, stack[n..], target);
    LastStep(g, stack[n..], root);
    LastStep(g, stack[k..], root);
    if HasEdge(g, stack[|stack| - 1], root) { CycleWalks(g, stack, n, k, root); }
  }

  lemma OwnPath(g: Graph, path: seq<Node>, v: Node)
    requires Walk(g, path + [v])
    ensures Walk(g, path)
  {
    forall i, j | 0 <= i && j == i + 1 < |path| ensures HasEdge(g, path[i], path[j]) {
      assert HasEdge(g, (path + [v])[i], (path + [v])[j]);
    }
  }

  lemma LastStep(g: Graph, path: seq<Node>, root: Node)
    requires path != []
    ensures Walk(g, path + [root]) <==> Walk(g, path) && HasEdge(g, path[|path| - 1], root)
  {
    var w := path + [root];
    if Walk(g, w) {
      OwnPath(g, path, root);
      assert HasEdge(g, w[|path| - 1], w[|path|]);
    }
    if Walk(g, path) && HasEdge(g, path[|path| - 1], root) {
      forall i, j | 0 <= i && j == i + 1 < |w| ensures HasEdge(g, w[i], w[j]) {
        if j < |path| { assert HasEdge(g, path[i], path[j]); }
      }
    }
  }

  /**
    The whole check, exactly.  There is no finding if and only if there is no cycle.  A reported cycle is real
    if and only if every search that started, up to the one that reports it, when the rule it closes on was
    already on the stack, started at a rule to which the rule on top of the stack refers.
  */
  lemma SearchIsExact(g: Graph, rules: seq<Node>)
    requires Bundle(g, Nodes(rules))
    ensures var f, stacks := ExploreAll(g, rules, START, 0).findings, Stacks(g, rules, START, 0);
            && (f == [] <==> Acyclic(g))
            && AllReported(g, stacks, f)
            && forall k :: 0 <= k < |f| ==> WorthExactly(g, stacks, f[k], k)
  {
    var fs := AllReports(g, rules, START, 0);
    var stacks := Stacks(g, rules, START, 0);
    assert START.findings + fs == fs;
    forall k | 0 <= k < |fs| ensures WorthExactly(g, stacks, fs[k], k) {
      ReportedAt(g, stacks, fs, k);
      GenuineExactly(g, stacks[k], stacks[k + 1], fs[k]);
      ReportCloses(g, stacks[k], stacks[k + 1], fs[k]);
      LeadsStepwise(g, stacks, fs, k, Target(fs[k]));
    }
    if fs == [] {
      SilentIsAcyclic(g, rules);
    } else {
      FirstIsGenuine(g, stacks, fs[0]);
      assert ClosedWalk(g, fs[0].cycle);
    }
  }

  ghost predicate WorthExactly(g: Graph, stacks: seq<seq<Node>>, f: Finding, k: nat) {
    && k + 1 < |stacks| && ClosesReally(g, f)
    && (Genuine(g, f) <==> JoinedSince(g, stacks, k, Target(f)))
  }

  /** The first search starts on an empty stack. */
  lemma FirstIsGenuine(g: Graph, stacks: seq<seq<Node>>, f: Finding)
    requires stacks != [] && stacks[0] == [] && WorthExactly(g, stacks, f, 0)
    ensures Genuine(g, f)
  {
  }

  /** A refers to itself, B refers to A. */
  const SELF_AND_FRIEND: Graph := map["A" := [Edge("A", false)], "B" := [Edge("A", false)]]

  /** A false one: the second finding is A, B, A, although A, on top of the stack, does not refer to B. */
  lemma LaterFindingIsFalse()
    ensures Bundle(SELF_AND_FRIEND, Nodes(["A", "B"]))
    ensures var f := ExploreAll(SELF_AND_FRIEND, ["A", "B"], START, 0).findings;
            |f| == 2 && f[1].cycle == ["A", "B", "A"] && !Genuine(SELF_AND_FRIEND, f[1])
  {
    var g, rules := SELF_AND_FRIEND, ["A", "B"];
    TwoRules(rules);
    FirstOfTwo(g, Nodes(rules));
    var s1 := Explore(g, Nodes(rules), START, "A").0;
    SecondOfTwo(g, Nodes(rules), s1);
    TwoSearches(g, rules, s1);
    SearchIsExact(g, rules);
    NotJoined(g, Stacks(g, rules, START, 0));
  }

  lemma TwoRules(rules: seq<Node>)
    requires rules == ["A", "B"]
    ensures Nodes(rules) == {"A", "B"} && Bundle(SELF_AND_FRIEND, Nodes(rules))
  {
    assert rules[0] in rules && rules[1] in rules;
  }

  lemma TwoSearches(g: Graph, rules: seq<Node>, s1: Search)
    requires |rules| == 2 && Bundle(g, Nodes(rules)) && rules[0] in Nodes(rules) && rules[1] in Nodes(rules)
    requires Explore(g, Nodes(rules), START, rules[0]) == (s1, true) && rules[1] !in s1.visited
    requires Explore(g, Nodes(rules), s1, rules[1]).1
    ensures var s2 := Explore(g, Nodes(rules), s1, rules[1]).0;
            ExploreAll(g, rules, START, 0) == s2 && Stacks(g, rules, START, 0) == [[], s1.stack, s2.stack]
  {
    var s2 := Explore(g, Nodes(rules), s1, rules[1]).0;
    assert ExploreAll(g, rules, s2, 2) == s2 && Stacks(g, rules, s2, 2) == [s2.stack];
    assert ExploreAll(g, rules, s1, 1) == s2 && Stacks(g, rules, s1, 1) == [s1.stack, s2.stack];
  }

  lemma NotJoined(g: Graph, stacks: seq<seq<Node>>)
    requires g == SELF_AND_FRIEND && stacks == [[], ["A"], ["A", "B"]]
    ensures !JoinedSince(g, stacks, 1, "A")
  {
    assert !HasEdge(g, "A", "B");
    assert "A" in stacks[1] && !Joined(g, stacks, 1);
  }

  lemma FirstOfTwo(g: Graph, nodes: set<Node>)
    requires g == SELF_AND_FRIEND && nodes == {"A", "B"}
    ensures Explore(g, nodes, START, "A") == (Search(map["A" := Grey], ["A"], [ReportOf(g, ["A"], "A", "A")]), true)
  {
    var s1 := Search(START.visited["A" := Grey], START.stack + ["A"], START.findings);
    assert s1 == Search(map["A" := Grey], ["A"], []);
    assert Adj(g, "A") == [Edge("A", false)] && s1.visited["A"] == Grey;
    assert s1.findings + [ReportOf(g, ["A"], "A", "A")] == [ReportOf(g, ["A"], "A", "A")];
    assert ExploreEdges(g, nodes, s1, "A", 0) == (s1.(findings := [ReportOf(g, ["A"], "A", "A")]), true);
    assert Explore(g, nodes, START, "A") == ExploreEdges(g, nodes, s1, "A", 0);
  }

  lemma SecondOfTwo(g: Graph, nodes: set<Node>, s: Search)
    requires g == SELF_AND_FRIEND && nodes == {"A", "B"} && s.visited == map["A" := Grey] && s.stack == ["A"]
    ensures var r := Explore(g, nodes, s, "B");
            && r.1 && r.0.stack == ["A", "B"]
            && r.0.findings == s.findings + [Finding("B", ["A", "B", "A"], NegatedOn(g, ["A", "B", "A"]))]
  {
    var s1 := Search(s.visited["B" := Grey], ["A", "B"], s.findings);
    assert s.stack + ["B"] == ["A", "B"];
    assert ["A", "B"][0..] + ["A"] == ["A", "B", "A"];
    assert ReportOf(g, s1.stack, "B", "A") == Finding("B", ["A", "B", "A"], NegatedOn(g, ["A", "B", "A"]));
    assert Adj(g, "B") == [Edge("A", false)] && s1.visited["A"] == Grey;
    assert ExploreEdges(g, nodes, s1, "B", 0) ==
           (s1.(findings := s1.findings + [ReportOf(g, s1.stack, "B", "A")]), true);
    assert Explore(g, nodes, s, "B") == ExploreEdges(g, nodes, s1, "B", 0);
  }

  // ---------------------------------------------------------------------------------------------
  // The imperative validator
  // ---------------------------------------------------------------------------------------------

  class Validator {
    const g: Graph
    const nodes: set<Node>
    var visited: map<Node, Colour>
    var stack: seq<Node>
    var findings: seq<Finding>

    constructor (g: Graph, nodes: set<Node>)
      requires Bundle(g, nodes)
      ensures this.g == g && this.nodes == nodes && Valid() && Abs() == START
    {
      this.g := g;
      this.nodes := nodes;
      visited, stack, findings := map[], [], [];
    }

    ghost predicate Valid() reads this { Bundle(g, nodes) && visited.Keys <= nodes }

    ghost function Abs(): Search reads this { Search(visited, stack, findings) }

    method CycleHasNegation(cycle: seq<Node>) returns (b: bool)
      ensures b <==> NegatedOn(g, cycle)
    {
      b := false;
      var i := 0;
      while i + 1 < |cycle|
        invariant 0 <= i && (i < |cycle| || i == 0)
        invariant forall k :: 0 <= k < i ==> !HasNegatedEdge(g, cycle[k], cycle[k + 1])
      {
        var adj := Adj(g, cycle[i]);
        for j := 0 to |adj|
          invariant forall k :: 0 <= k < j ==> adj[k] != Edge(cycle[i + 1], true)
        {
          if adj[j].to == cycle[i + 1] && adj[j].negated {
            assert adj[j] == Edge(cycle[i + 1], true);
            return true;
          }
        }
        i := i + 1;
      }
    }

    method IndexInStack(v: Node) returns (idx: nat)
      ensures idx == FirstIndex(stack, v)
    {
      for i := 0 to |stack|
        invariant v !in stack[..i]
      {
        if stack[i] == v {
          assert v in stack;
          return i;
        }
      }
      assert stack[..|stack|] == stack;
      idx := 0;
    }

    /** Reports the cycle that the edge from `u`, on top of the stack, to the grey rule `v` closes. */
    method Report(u: Node, v: Node)
      modifies this`findings
      ensures findings == old(findings) + [ReportOf(g, stack, u, v)]
    {
      var idx := IndexInStack(v);
      var cycle := stack[idx..] + [v];
      var negated := CycleHasNegation(cycle);
      findings := findings + [Finding(u, cycle, negated)];
    }

    /** Explores `u`; true when a cycle was reported. */
    method Dfs(u: Node) returns (found: bool)
      requires Valid() && u in nodes && u !in visited
      modifies this
      ensures Valid() && (Abs(), found) == Explore(g, nodes, old(Abs()), u)
      decreases nodes - visited.Keys
    {
      ghost var s := Abs();
      visited := visited[u := Grey];
      stack := stack + [u];
      ghost var s1 := Abs();
      ghost var all := ExploreEdges(g, nodes, s1, u, 0);
      var adj := Adj(g, u);
      for i := 0 to |adj|
        invariant Valid() && u in visited && s.visited.Keys <= visited.Keys && stack == s1.stack
        invariant all == ExploreEdges(g, nodes, Abs(), u, i)
      {
        var v := adj[i].to;
        FewerLeft(nodes, s.visited.Keys, visited.Keys, u);
        if v !in visited {
          found := Dfs(v);
          if found { return true; }
        } else if visited[v] == Grey {
          Report(u, v);
          return true;
        }
      }
      stack := stack[..|stack| - 1];
      visited := visited[u := Black];
      found := false;
    }
  }

  /**
    The whole check, over the rules in bundle order.  There is no finding exactly when the dependency
    graph has no cycle, and the first finding is genuine.  Of every later one the closing step is certain, and
    whether the whole of it is genuine is told by the stacks on which the searches started.
  */
  method CheckCycles(g: Graph, rules: seq<Node>) returns (findings: seq<Finding>)
    requires Bundle(g, Nodes(rules))
    ensures findings == ExploreAll(g, rules, START, 0).findings
    ensures findings == [] <==> Acyclic(g)
    ensures findings != [] ==> Genuine(g, findings[0])
    ensures AllReported(g, Stacks(g, rules, START, 0), findings)
    ensures forall k :: 0 <= k < |findings| ==> WorthExactly(g, Stacks(g, rules, START, 0), findings[k], k)
  {
    var v := new Validator(g, Nodes(rules));
    ghost var all := ExploreAll(g, rules, START, 0);
    for i := 0 to |rules|
      invariant fresh(v) && v.g == g && v.nodes == Nodes(rules) && v.Valid()
      invariant all == ExploreAll(g, rules, v.Abs(), i)
    {
      if rules[i] !in v.visited {
        var found := v.Dfs(rules[i]);
      }
    }
    findings := v.findings;
    SearchIsExact(g, rules);
    if findings != [] { FirstIsGenuine(g, Stacks(g, rules, START, 0), findings[0]); }
  }
}
