/**
 * Day 11, the reactor: a directed graph of devices, one line
 * "name: out1 out2 ..." per device. Part one counts the paths from "you"
 * to "out" by a depth-first search that keeps the nodes of the current path
 * in a visited set; part two counts, with a memo table, the paths from
 * "svr" to "out" that pass through both "fft" and "dac".
 */
module Reactor {
  import opened Text

  /** Each device's outputs, in the order its line lists them. */
  type Graph = map<string, seq<string>>

  // ---------------------------------------------------------------------
  // Reading the graph

  /** A line the parser skips: nothing but characters trim() removes. */
  predicate Blank(line: string) {
    Trim(line) == ""
  }

  /** The node a line names: the text before its first ':' (the whole line without one), trimmed. */
  function NodeOf(line: string): string {
    var i := IndexOf(line, ':', 0);
    Trim(if i < 0 then line else line[..i])
  }

  /** The non-empty pieces, each trimmed, in order. */
  function Tokens(ts: seq<string>): (r: seq<string>)
    ensures |r| <= |ts|
  {
    if |ts| == 0 then []
    else Tokens(ts[..|ts| - 1]) + (if ts[|ts| - 1] == "" then [] else [Trim(ts[|ts| - 1])])
  }

  /** The outputs a line lists: the tokens of the trimmed text after its first ':'. */
  function SuccessorsOf(line: string): seq<string> {
    var i := IndexOf(line, ':', 0);
    if i < 0 then []
    else
      var rhs := Trim(line[i + 1..]);
      if rhs == "" then [] else Tokens(SplitSpaces(rhs))
  }

  /**
   * The table of the lines not skipped, each under key(line) with value
   * val(line); a later line for a key replaces an earlier one.
   */
  function Table<V>(lines: seq<string>, skip: string -> bool, key: string -> string, val: string -> V): map<string, V> {
    if |lines| == 0 then map[]
    else
      var t := Table(lines[..|lines| - 1], skip, key, val);
      var line := lines[|lines| - 1];
      if skip(line) then t else t[key(line) := val(line)]
  }

  /** The graph the lines describe: blank lines are skipped and a later line for a node replaces an earlier one. */
  function GraphOf(lines: seq<string>): Graph {
    Table(lines, Blank, NodeOf, SuccessorsOf)
  }

  /** The outputs of one line, read token by token. */
  method ReadSuccessors(line: string) returns (outs: seq<string>)
    ensures outs == SuccessorsOf(line)
  {
    outs := [];
    var i := IndexOf(line, ':', 0);
    if i >= 0 {
      var rhs := Trim(line[i + 1..]);
      if rhs != "" {
        var ts := SplitSpaces(rhs);
        for k := 0 to |ts|
          invariant outs == Tokens(ts[..k])
        {
          assert ts[..k + 1][..k] == ts[..k];
          if ts[k] != "" {
            outs := outs + [Trim(ts[k])];
          }
        }
        assert ts[..|ts|] == ts;
      }
    }
  }

  /** The node one line names. */
  method ReadNode(line: string) returns (node: string)
    ensures node == NodeOf(line)
  {
    var i := IndexOf(line, ':', 0);
    node := Trim(if i < 0 then line else line[..i]);
  }

  lemma TableSnoc<V>(lines: seq<string>, k: nat, skip: string -> bool, key: string -> string, val: string -> V)
    requires k < |lines|
    ensures Table(lines[..k + 1], skip, key, val) ==
            var t := Table(lines[..k], skip, key, val);
            if skip(lines[k]) then t else t[key(lines[k]) := val(lines[k])]
  {
    assert lines[..k + 1][..k] == lines[..k];
  }

  /** The graph of all lines, built line by line. */
  method ParseInput(input: seq<string>) returns (graph: Graph)
    ensures graph == GraphOf(input)
  {
    graph := map[];
    for k := 0 to |input|
      invariant graph == Table(input[..k], Blank, NodeOf, SuccessorsOf)
    {
      TableSnoc(input, k, Blank, NodeOf, SuccessorsOf);
      var line := input[k];
      if !Blank(line) {
        var node := ReadNode(line);
        var outs := ReadSuccessors(line);
        graph := graph[node := outs];
      }
    }
    assert input[..|input|] == input;
  }

  lemma {:induction false} TableKeys<V>(lines: seq<string>, skip: string -> bool, key: string -> string, val: string -> V, k: string)
    ensures k in Table(lines, skip, key, val) <==> exists i :: 0 <= i < |lines| && !skip(lines[i]) && key(lines[i]) == k
  {
    if |lines| > 0 {
      var n := |lines| - 1;
      var init := lines[..n];
      TableKeys(init, skip, key, val, k);
      assert forall i :: 0 <= i < n ==> init[i] == lines[i];
    }
  }

  lemma {:induction false} TableLast<V>(lines: seq<string>, skip: string -> bool, key: string -> string, val: string -> V, i: nat)
    requires i < |lines| && !skip(lines[i])
    requires forall j :: i < j < |lines| && !skip(lines[j]) ==> key(lines[j]) != key(lines[i])
    ensures key(lines[i]) in Table(lines, skip, key, val) && Table(lines, skip, key, val)[key(lines[i])] == val(lines[i])
  {
    if i < |lines| - 1 {
      var init := lines[..|lines| - 1];
      assert forall j :: 0 <= j < |init| ==> init[j] == lines[j];
      TableLast(init, skip, key, val, i);
    }
  }

  /** The graph has a node exactly when some non-blank line names it. */
  lemma GraphKeys(lines: seq<string>, node: string)
    ensures node in GraphOf(lines) <==> exists i :: 0 <= i < |lines| && !Blank(lines[i]) && NodeOf(lines[i]) == node
  {
    TableKeys(lines, Blank, NodeOf, SuccessorsOf, node);
  }

  /** A node's outputs are those of the last non-blank line that names it. */
  lemma LastLineWins(lines: seq<string>, i: nat)
    requires i < |lines| && !Blank(lines[i])
    requires forall j :: i < j < |lines| && !Blank(lines[j]) ==> NodeOf(lines[j]) != NodeOf(lines[i])
    ensures NodeOf(lines[i]) in GraphOf(lines) && GraphOf(lines)[NodeOf(lines[i])] == SuccessorsOf(lines[i])
  {
    TableLast(lines, Blank, NodeOf, SuccessorsOf, i);
  }

  /** The line "node: o1 o2 ..." of a device, or "node:" when it has no outputs. */
  function Render(node: string, outs: seq<string>): string {
    node + ":" + (if |outs| == 0 then "" else " " + Join(outs, ' '))
  }

  lemma {:induction false} IndexOfAt(s: string, c: char, from: nat, k: nat)
    requires from <= k < |s| && s[k] == c
    requires forall i :: from <= i < k ==> s[i] != c
    ensures IndexOf(s, c, from) == k
    decreases k - from
  {
    if from < k {
      IndexOfAt(s, c, from + 1, k);
    }
  }

  lemma TrimSpaceBefore(s: string)
    requires |s| > 0 && !IsTrimmed(s[0]) && !IsTrimmed(s[|s| - 1])
    ensures Trim([' '] + s) == s
  {
    var t := [' '] + s;
    assert t[1..] == s;
    assert LeadingCount(s, IsTrimmed) == 0;
    assert LeadingCount(t, IsTrimmed) == 1;
    assert TrailingCount(s, IsTrimmed) == 0;
  }

  lemma {:induction false} TokensOfWords(ts: seq<string>)
    requires Words(ts)
    ensures Tokens(ts) == ts
  {
    if |ts| > 0 {
      var init := ts[..|ts| - 1];
      assert Words(init) by {
        forall k | 0 <= k < |init| ensures |init[k]| > 0 && forall i :: 0 <= i < |init[k]| ==> !IsTrimmed(init[k][i]) {
          assert init[k] == ts[k];
        }
      }
      TokensOfWords(init);
      var w := ts[|ts| - 1];
      assert |w| > 0 && !IsTrimmed(w[0]) && !IsTrimmed(w[|w| - 1]);
      TrimKeeps(w);
    }
  }

  /** The outputs listed after words joined by single spaces are the words. */
  lemma TokensAfterColon(outs: seq<string>)
    requires Words(outs)
    ensures var rest := if |outs| == 0 then "" else " " + Join(outs, ' ');
            (if Trim(rest) == "" then [] else Tokens(SplitSpaces(Trim(rest)))) == outs
  {
    if |outs| > 0 {
      var j := Join(outs, ' ');
      JoinEnds(outs, ' ');
      TrimSpaceBefore(j);
      assert " " + j == [' '] + j;
      TrimKeeps(j);
      SplitJoinedWords(outs);
      TokensOfWords(outs);
    }
  }

  /** The first ':' of a rendered line is the one after the node. */
  lemma RenderColon(node: string, outs: seq<string>)
    requires ':' !in node
    ensures var line := Render(node, outs);
            IndexOf(line, ':', 0) == |node| && line[..|node|] == node &&
            line[|node| + 1..] == if |outs| == 0 then "" else " " + Join(outs, ' ')
  {
    var line := Render(node, outs);
    var rest := if |outs| == 0 then "" else " " + Join(outs, ' ');
    assert line == node + ":" + rest;
    assert forall i :: 0 <= i < |node| ==> line[i] == node[i];
    IndexOfAt(line, ':', 0, |node|);
    assert line[..|node|] == node;
    assert line[|node| + 1..] == rest;
  }

  /** Reading a rendered line gives back its node and its outputs. */
  lemma ParseRender(node: string, outs: seq<string>)
    requires Word(node) && ':' !in node && Words(outs)
    ensures !Blank(Render(node, outs))
    ensures NodeOf(Render(node, outs)) == node && SuccessorsOf(Render(node, outs)) == outs
  {
    var line := Render(node, outs);
    RenderColon(node, outs);
    TrimKeeps(node);
    TrimChars(line);
    assert line[0] == node[0];
    assert line[0] in Trim(line);
    TokensAfterColon(outs);
  }

  // ---------------------------------------------------------------------
  // Part one: simple paths

  /** ps with node put in front of each path. */
  function Prepend(node: string, ps: seq<seq<string>>): (r: seq<seq<string>>)
    ensures |r| == |ps| && forall i :: 0 <= i < |ps| ==> r[i] == [node] + ps[i]
  {
    seq(|ps|, i requires 0 <= i < |ps| => [node] + ps[i])
  }

  /**
   * The paths from node to "out" that avoid the nodes in visited and
   * repeat no node: one for each way of choosing among the entries of the
   * output lists, duplicates included. The search ends at "out" whatever
   * "out" itself lists.
   */
  function Paths(g: Graph, node: string, visited: set<string>): seq<seq<string>>
    decreases |g.Keys - visited|, 0, 0
  {
    if node == "out" then [["out"]]
    else if node in visited || node !in g then []
    else
      assert g.Keys - visited == (g.Keys - (visited + {node})) + {node};
      PathsVia(g, node, g[node], visited + {node})
  }

  /** The paths from node that continue through one of succ, in order. */
  function PathsVia(g: Graph, node: string, succ: seq<string>, visited: set<string>): seq<seq<string>>
    decreases |g.Keys - visited|, 1, |succ|
  {
    if |succ| == 0 then []
    else PathsVia(g, node, succ[..|succ| - 1], visited) + Prepend(node, Paths(g, succ[|succ| - 1], visited))
  }

  /** p leads along g's edges to "out", stops there, avoids visited and repeats no node. */
  ghost predicate SimplePath(g: Graph, p: seq<string>, visited: set<string>) {
    |p| > 0 && p[|p| - 1] == "out" &&
    (forall i :: 0 <= i < |p| - 1 ==> p[i] != "out" && p[i] !in visited && p[i] in g && p[i + 1] in g[p[i]]) &&
    (forall i, j :: 0 <= i < j < |p| - 1 ==> p[i] != p[j])
  }

  lemma ConsPath(g: Graph, node: string, q: seq<string>, visited: set<string>)
    requires node != "out" && node !in visited && node in g
    requires SimplePath(g, q, visited + {node}) && q[0] in g[node]
    ensures SimplePath(g, [node] + q, visited)
  {
    var p := [node] + q;
    assert forall i :: 1 <= i < |p| ==> p[i] == q[i - 1];
  }

  /** Every enumerated path starts at node and is a simple path to "out". */
  lemma {:induction false} PathsSound(g: Graph, node: string, visited: set<string>)
    ensures forall p :: p in Paths(g, node, visited) ==> SimplePath(g, p, visited) && p[0] == node
    decreases |g.Keys - visited|, 0, 0
  {
    if node != "out" && node !in visited && node in g {
      assert g.Keys - visited == (g.Keys - (visited + {node})) + {node};
      PathsViaSound(g, node, g[node], visited);
    }
  }

  lemma {:induction false} PathsViaSound(g: Graph, node: string, succ: seq<string>, visited: set<string>)
    requires node != "out" && node !in visited && node in g
    requires forall s :: s in succ ==> s in g[node]
    ensures forall p :: p in PathsVia(g, node, succ, visited + {node}) ==> SimplePath(g, p, visited) && p[0] == node
    decreases |g.Keys - (visited + {node})|, 1, |succ|
  {
    if |succ| > 0 {
      var s := succ[|succ| - 1];
      PathsViaSound(g, node, succ[..|succ| - 1], visited);
      PathsSound(g, s, visited + {node});
      forall q | q in Paths(g, s, visited + {node}) ensures SimplePath(g, [node] + q, visited) {
        ConsPath(g, node, q, visited);
      }
    }
  }

  lemma {:induction false} ViaContains(g: Graph, node: string, succ: seq<string>, visited: set<string>, j: nat, q: seq<string>)
    requires j < |succ| && q in Paths(g, succ[j], visited)
    ensures [node] + q in PathsVia(g, node, succ, visited)
    decreases |succ|
  {
    var ps := Paths(g, succ[j], visited);
    if j < |succ| - 1 {
      ViaContains(g, node, succ[..|succ| - 1], visited, j, q);
    } else {
      var k :| 0 <= k < |ps| && ps[k] == q;
      assert Prepend(node, ps)[k] == [node] + q;
    }
  }

  /** Every simple path to "out" is enumerated from its first node. */
  lemma {:induction false} PathsComplete(g: Graph, p: seq<string>, visited: set<string>)
    requires SimplePath(g, p, visited)
    ensures p in Paths(g, p[0], visited)
    decreases |p|
  {
    if p[0] == "out" {
      assert p == ["out"];
    } else {
      var node, q := p[0], p[1..];
      assert p == [node] + q;
      assert SimplePath(g, q, visited + {node}) by {
        forall i | 0 <= i < |q| - 1 ensures q[i] != node {
          assert q[i] == p[i + 1];
        }
      }
      PathsComplete(g, q, visited + {node});
      var j :| 0 <= j < |g[node]| && g[node][j] == q[0];
      ViaContains(g, node, g[node], visited + {node}, j, q);
    }
  }

  /** No device lists the same output twice. */
  ghost predicate NoRepeatedOutputs(g: Graph) {
    forall u :: u in g ==> forall i, j :: 0 <= i < j < |g[u]| ==> g[u][i] != g[u][j]
  }

  /** No entry of ps occurs twice. */
  ghost predicate Distinct(ps: seq<seq<string>>) {
    forall i, j :: 0 <= i < j < |ps| ==> ps[i] != ps[j]
  }

  /** When no output list repeats an entry, the enumeration lists no path twice. */
  lemma {:induction false} PathsDistinct(g: Graph, node: string, visited: set<string>)
    requires NoRepeatedOutputs(g)
    ensures Distinct(Paths(g, node, visited))
    decreases |g.Keys - visited|, 0, 0
  {
    if node != "out" && node !in visited && node in g {
      assert g.Keys - visited == (g.Keys - (visited + {node})) + {node};
      ViaDistinct(g, node, g[node], visited);
    }
  }

  /**
   * Paths through different successors differ at index 1; paths through
   * one successor are distinct by induction.
   */
  lemma {:induction false} ViaDistinct(g: Graph, node: string, succ: seq<string>, visited: set<string>)
    requires NoRepeatedOutputs(g) && node !in visited && node in g
    requires forall i, j :: 0 <= i < j < |succ| ==> succ[i] != succ[j]
    ensures Distinct(PathsVia(g, node, succ, visited + {node}))
    ensures forall p :: p in PathsVia(g, node, succ, visited + {node}) ==> |p| > 1 && p[1] in succ
    decreases |g.Keys - (visited + {node})|, 1, |succ|
  {
    if |succ| > 0 {
      var init, s := succ[..|succ| - 1], succ[|succ| - 1];
      var a, qs := PathsVia(g, node, init, visited + {node}), Paths(g, s, visited + {node});
      var b := Prepend(node, qs);
      ViaDistinct(g, node, init, visited);
      PathsDistinct(g, s, visited + {node});
      PathsSound(g, s, visited + {node});
      assert forall k :: 0 <= k < |b| ==> |b[k]| > 1 && b[k][1..] == qs[k] && b[k][1] == s by {
        forall k | 0 <= k < |b| ensures |b[k]| > 1 && b[k][1..] == qs[k] && b[k][1] == s {
          assert qs[k] in qs;
          assert b[k] == [node] + qs[k];
        }
      }
      assert s !in init;
      forall i, j | 0 <= i < j < |a + b| ensures (a + b)[i] != (a + b)[j] {
        if j < |a| {
        } else if i < |a| {
          assert a[i] in a;
        } else {
          assert b[i - |a|][1..] != b[j - |a|][1..];
        }
      }
      forall p | p in a + b ensures |p| > 1 && p[1] in succ {
        if p !in a {
          var k :| 0 <= k < |b| && b[k] == p;
        }
      }
    }
  }

  /** p counts for Through: it holds "fft" unless fft is set and "dac" unless dac is set. */
  predicate Counts(p: seq<string>, fft: bool, dac: bool) {
    (fft || "fft" in p) && (dac || "dac" in p)
  }

  /** Through counts the distinct paths of a list without repeats that count. */
  lemma {:induction false} ThroughCountsSet(ps: seq<seq<string>>, fft: bool, dac: bool)
    requires Distinct(ps)
    ensures Through(ps, fft, dac) == |set p | p in ps && Counts(p, fft, dac)|
  {
    if |ps| > 0 {
      var init, last := ps[..|ps| - 1], ps[|ps| - 1];
      assert Distinct(init);
      ThroughCountsSet(init, fft, dac);
      CountedSnoc(init, last, fft, dac);
      assert init + [last] == ps;
    }
  }

  /** The counted paths of init + [last], when last is not already in init. */
  lemma CountedSnoc(init: seq<seq<string>>, last: seq<string>, fft: bool, dac: bool)
    requires last !in init
    ensures var before := set p | p in init && Counts(p, fft, dac);
            |set p | p in init + [last] && Counts(p, fft, dac)| ==
            |before| + (if Counts(last, fft, dac) then 1 else 0)
  {
    var before := set p | p in init && Counts(p, fft, dac);
    var after := set p | p in init + [last] && Counts(p, fft, dac);
    assert last !in before;
    if Counts(last, fft, dac) {
      assert after == before + {last};
    } else {
      assert after == before;
    }
  }

  /**
   * The enumeration lists exactly the simple paths from node to "out"
   * avoiding visited; without repeated outputs it lists each once, so its
   * length is the number of those paths and Through(_, false, false) the
   * number of them that pass through both "fft" and "dac".
   */
  lemma PathsCountSimplePaths(g: Graph, node: string, visited: set<string>)
    requires NoRepeatedOutputs(g)
    ensures forall p :: p in Paths(g, node, visited) <==> SimplePath(g, p, visited) && p[0] == node
    ensures |Paths(g, node, visited)| == |set p | p in Paths(g, node, visited)|
    ensures Through(Paths(g, node, visited), false, false) ==
            |set p | p in Paths(g, node, visited) && "fft" in p && "dac" in p|
  {
    PathsSound(g, node, visited);
    forall p | SimplePath(g, p, visited) && p[0] == node ensures p in Paths(g, node, visited) {
      PathsComplete(g, p, visited);
    }
    PathsDistinct(g, node, visited);
    var ps := Paths(g, node, visited);
    ThroughCountsSet(ps, true, true);
    ThroughAll(ps);
    ThroughCountsSet(ps, false, false);
    assert (set p | p in ps && Counts(p, true, true)) == set p | p in ps;
    assert (set p | p in ps && Counts(p, false, false)) == set p | p in ps && "fft" in p && "dac" in p;
  }

  /** The visited set of dfsCount: the nodes of the current path. */
  class PathSet {
    var nodes: set<string>

    constructor ()
      ensures nodes == {}
    {
      nodes := {};
    }
  }

  /**
   * The number of enumerated paths from node to "out" that avoid the
   * visited nodes, which without repeated outputs is the number of distinct
   * simple paths; the visited set is left as it was found.
   */
  method DfsCount(node: string, g: Graph, visited: PathSet) returns (total: nat)
    modifies visited
    ensures visited.nodes == old(visited.nodes)
    ensures total == |Paths(g, node, old(visited.nodes))|
    ensures NoRepeatedOutputs(g) ==> total == |set p | p in Paths(g, node, old(visited.nodes))|
    decreases |g.Keys - visited.nodes|
  {
    if NoRepeatedOutputs(g) {
      PathsCountSimplePaths(g, node, visited.nodes);
    }
    if node == "out" {
      return 1;
    }
    if node in visited.nodes {
      return 0;
    }
    ghost var V := visited.nodes;
    visited.nodes := visited.nodes + {node};
    total := 0;
    var succ := if node in g then g[node] else [];
    for j := 0 to |succ|
      invariant visited.nodes == V + {node}
      invariant total == |PathsVia(g, node, succ[..j], V + {node})|
    {
      assert g.Keys - V == (g.Keys - (V + {node})) + {node};
      var c := DfsCount(succ[j], g, visited);
      assert succ[..j + 1][..j] == succ[..j];
      total := total + c;
    }
    assert succ[..|succ|] == succ;
    visited.nodes := visited.nodes - {node};
  }

  /**
   * Part one: the number of entries of the enumeration from "you"; when no
   * device lists an output twice, the number of distinct simple paths from
   * "you" to "out".
   */
  method SolveSilver(input: seq<string>) returns (total: nat)
    ensures total == |Paths(GraphOf(input), "you", {})|
    ensures NoRepeatedOutputs(GraphOf(input)) ==>
              total == |set p | p in Paths(GraphOf(input), "you", {})|
  {
    if NoRepeatedOutputs(GraphOf(input)) {
      PathsCountSimplePaths(GraphOf(input), "you", {});
    }
    var graph := ParseInput(input);
    var visited := new PathSet();
    total := DfsCount("you", graph, visited);
  }

  // ---------------------------------------------------------------------
  // Part two: paths through "fft" and "dac"

  /**
   * rank orders the devices it ranks: every output of a ranked, listed
   * device other than "out" is ranked too, below the device. No cycle
   * can be reached from a ranked device; devices outside rank are free.
   */
  ghost predicate RankOrders(g: Graph, rank: map<string, nat>) {
    forall u :: u in rank && u in g && u != "out" ==> forall v :: v in g[u] ==> v in rank && rank[v] < rank[u]
  }

  /** The count from node is defined: node is ranked, or has no outputs to follow. */
  ghost predicate Ranked(g: Graph, rank: map<string, nat>, node: string) {
    node in rank || node !in g || node == "out"
  }

  /** A cycle that "svr" cannot reach does not stop part two from being ranked. */
  lemma UnreachableCycleRanked()
    ensures var g: Graph := map["svr" := ["out"], "a" := ["b"], "b" := ["a"]];
            var rank := map["svr" := 1, "out" := 0];
            RankOrders(g, rank) && Ranked(g, rank, "svr")
  {
    var g: Graph := map["svr" := ["out"], "a" := ["b"], "b" := ["a"]];
    var rank := map["svr" := 1, "out" := 0];
    forall u | u in rank && u in g && u != "out" ensures forall v :: v in g[u] ==> v in rank && rank[v] < rank[u] {
      assert u == "svr" && g[u] == ["out"];
    }
  }

  function Height(rank: map<string, nat>, node: string): nat {
    if node in rank then rank[node] else 0
  }

  /**
   * The number of paths from node to "out" on which "fft" and "dac" have
   * both been seen, given whether they were seen before node.
   */
  ghost function Special(g: Graph, rank: map<string, nat>, node: string, fft: bool, dac: bool): nat
    requires RankOrders(g, rank) && Ranked(g, rank, node)
    decreases Height(rank, node), 1, 0
  {
    var f, d := fft || node == "fft", dac || node == "dac";
    if node == "out" then (if f && d then 1 else 0)
    else if node !in g then 0
    else SpecialVia(g, rank, node, g[node], f, d)
  }

  /** The sum of Special over the outputs succ of node. */
  ghost function SpecialVia(g: Graph, rank: map<string, nat>, node: string, succ: seq<string>, fft: bool, dac: bool): nat
    requires RankOrders(g, rank) && node in rank && node in g && node != "out"
    requires forall s :: s in succ ==> s in g[node]
    decreases rank[node], 0, |succ|
  {
    if |succ| == 0 then 0
    else SpecialVia(g, rank, node, succ[..|succ| - 1], fft, dac) + Special(g, rank, succ[|succ| - 1], fft, dac)
  }

  /** The number of paths that hold "fft" unless fft is set and "dac" unless dac is set. */
  function Through(ps: seq<seq<string>>, fft: bool, dac: bool): (k: nat)
    ensures k <= |ps|
  {
    if |ps| == 0 then 0
    else Through(ps[..|ps| - 1], fft, dac) +
         var p := ps[|ps| - 1]; if (fft || "fft" in p) && (dac || "dac" in p) then 1 else 0
  }

  lemma {:induction false} ThroughAppend(a: seq<seq<string>>, b: seq<seq<string>>, fft: bool, dac: bool)
    ensures Through(a + b, fft, dac) == Through(a, fft, dac) + Through(b, fft, dac)
    decreases |b|
  {
    if |b| > 0 {
      assert (a + b)[..|a + b| - 1] == a + b[..|b| - 1];
      ThroughAppend(a, b[..|b| - 1], fft, dac);
    } else {
      assert a + b == a;
    }
  }

  /** A node in front of every path counts as having been seen before them. */
  lemma {:induction false} ThroughPrepend(node: string, ps: seq<seq<string>>, fft: bool, dac: bool)
    ensures Through(Prepend(node, ps), fft, dac) == Through(ps, fft || node == "fft", dac || node == "dac")
  {
    if |ps| > 0 {
      assert Prepend(node, ps)[..|ps| - 1] == Prepend(node, ps[..|ps| - 1]);
      ThroughPrepend(node, ps[..|ps| - 1], fft, dac);
      var p := ps[|ps| - 1];
      assert ("fft" in [node] + p) == (node == "fft" || "fft" in p);
      assert ("dac" in [node] + p) == (node == "dac" || "dac" in p);
    }
  }

  /** With both flags set every path counts. */
  lemma {:induction false} ThroughAll(ps: seq<seq<string>>)
    ensures Through(ps, true, true) == |ps|
  {
    if |ps| > 0 {
      ThroughAll(ps[..|ps| - 1]);
    }
  }

  /** Setting a flag never loses a path. */
  lemma {:induction false} ThroughMonotone(ps: seq<seq<string>>, fft: bool, dac: bool, fft': bool, dac': bool)
    requires (fft ==> fft') && (dac ==> dac')
    ensures Through(ps, fft, dac) <= Through(ps, fft', dac')
  {
    if |ps| > 0 {
      ThroughMonotone(ps[..|ps| - 1], fft, dac, fft', dac');
    }
  }

  /**
   * In a ranked graph, Special counts the simple paths from node to "out"
   * through "fft" and "dac", for any visited set of higher-ranked nodes.
   */
  lemma {:induction false} SpecialCountsPaths(g: Graph, rank: map<string, nat>, node: string, fft: bool, dac: bool, visited: set<string>)
    requires RankOrders(g, rank) && Ranked(g, rank, node)
    requires forall v :: v in visited ==> v in rank && Height(rank, node) < rank[v]
    ensures Special(g, rank, node, fft, dac) == Through(Paths(g, node, visited), fft, dac)
    decreases Height(rank, node), 1, 0
  {
    if node == "out" {
      assert !("fft" in ["out"]) && !("dac" in ["out"]);
    } else if node in g {
      assert node !in visited;
      SpecialViaCountsPaths(g, rank, node, g[node], fft, dac, visited);
    }
  }

  lemma {:induction false} SpecialViaCountsPaths(g: Graph, rank: map<string, nat>, node: string, succ: seq<string>,
                                                 fft: bool, dac: bool, visited: set<string>)
    requires RankOrders(g, rank) && node in rank && node in g && node != "out" && node !in visited
    requires forall s :: s in succ ==> s in g[node]
    requires forall v :: v in visited ==> v in rank && rank[node] < rank[v]
    ensures SpecialVia(g, rank, node, succ, fft || node == "fft", dac || node == "dac") ==
            Through(PathsVia(g, node, succ, visited + {node}), fft, dac)
    decreases rank[node], 0, |succ|
  {
    if |succ| > 0 {
      var s := succ[|succ| - 1];
      var f, d := fft || node == "fft", dac || node == "dac";
      SpecialViaCountsPaths(g, rank, node, succ[..|succ| - 1], fft, dac, visited);
      SpecialCountsPaths(g, rank, s, f, d, visited + {node});
      ThroughPrepend(node, Paths(g, s, visited + {node}), fft, dac);
      ThroughAppend(PathsVia(g, node, succ[..|succ| - 1], visited + {node}),
                    Prepend(node, Paths(g, s, visited + {node})), fft, dac);
    }
  }

  /** With both flags already set, part two counts exactly part one's paths. */
  lemma SpecialAll(g: Graph, rank: map<string, nat>, node: string)
    requires RankOrders(g, rank) && Ranked(g, rank, node)
    ensures Special(g, rank, node, true, true) == |Paths(g, node, {})|
  {
    SpecialCountsPaths(g, rank, node, true, true, {});
    ThroughAll(Paths(g, node, {}));
  }

  /** The flags only grow along a path, and a set flag never lowers the count. */
  lemma SpecialMonotone(g: Graph, rank: map<string, nat>, node: string, fft: bool, dac: bool, fft': bool, dac': bool)
    requires RankOrders(g, rank) && Ranked(g, rank, node) && (fft ==> fft') && (dac ==> dac')
    ensures Special(g, rank, node, fft, dac) <= Special(g, rank, node, fft', dac')
  {
    SpecialCountsPaths(g, rank, node, fft, dac, {});
    SpecialCountsPaths(g, rank, node, fft', dac', {});
    ThroughMonotone(Paths(g, node, {}), fft, dac, fft', dac');
  }

  /** The memo table of countSpecial: (node, "fft" seen, "dac" seen) to the count from there. */
  class Memo {
    var table: map<(string, bool, bool), nat>

    constructor ()
      ensures table == map[]
    {
      table := map[];
    }
  }

  /** Every stored count is the count of its state. */
  ghost predicate MemoSound(g: Graph, rank: map<string, nat>, table: map<(string, bool, bool), nat>)
    requires RankOrders(g, rank)
  {
    forall key :: key in table ==> Ranked(g, rank, key.0) && table[key] == Special(g, rank, key.0, key.1, key.2)
  }

  /** Special depends on the flags only as updated for node itself. */
  lemma SpecialFlags(g: Graph, rank: map<string, nat>, node: string, fft: bool, dac: bool)
    requires RankOrders(g, rank) && Ranked(g, rank, node)
    ensures Special(g, rank, node, fft || node == "fft", dac || node == "dac") == Special(g, rank, node, fft, dac)
  {
  }

  /** Storing a state's count under the node and its updated flags keeps the memo sound. */
  lemma MemoPut(g: Graph, rank: map<string, nat>, table: map<(string, bool, bool), nat>, node: string, fft: bool, dac: bool, v: nat)
    requires RankOrders(g, rank) && Ranked(g, rank, node) && MemoSound(g, rank, table) && v == Special(g, rank, node, fft, dac)
    ensures MemoSound(g, rank, table[(node, fft || node == "fft", dac || node == "dac") := v])
  {
    SpecialFlags(g, rank, node, fft, dac);
  }

  /**
   * The number of paths from node to "out" through "fft" and "dac", given
   * the flags so far. Every count computed is stored under the node and the
   * flags updated for it; stored counts stay correct. It terminates only
   * when no cycle can be reached from node, which rank witnesses.
   */
  method CountSpecial(node: string, g: Graph, fft: bool, dac: bool, memo: Memo, ghost rank: map<string, nat>)
    returns (total: nat)
    requires RankOrders(g, rank) && Ranked(g, rank, node) && MemoSound(g, rank, memo.table)
    modifies memo
    ensures MemoSound(g, rank, memo.table) && old(memo.table).Keys <= memo.table.Keys
    ensures total == Special(g, rank, node, fft, dac)
    decreases Height(rank, node)
  {
    var newFft := fft || node == "fft";
    var newDac := dac || node == "dac";
    var key := (node, newFft, newDac);
    SpecialFlags(g, rank, node, fft, dac);
    if key in memo.table {
      return memo.table[key];
    }
    if node == "out" {
      var result := if newFft && newDac then 1 else 0;
      MemoPut(g, rank, memo.table, node, fft, dac, result);
      memo.table := memo.table[key := result];
      return result;
    }
    var neighbors := if node in g then g[node] else [];
    if |neighbors| == 0 {
      MemoPut(g, rank, memo.table, node, fft, dac, 0);
      memo.table := memo.table[key := 0];
      return 0;
    }
    total := 0;
    for j := 0 to |neighbors|
      invariant MemoSound(g, rank, memo.table) && old(memo.table).Keys <= memo.table.Keys
      invariant total == SpecialVia(g, rank, node, neighbors[..j], newFft, newDac)
    {
      var c := CountSpecial(neighbors[j], g, newFft, newDac, memo, rank);
      assert neighbors[..j + 1][..j] == neighbors[..j];
      total := total + c;
    }
    assert neighbors[..|neighbors|] == neighbors;
    MemoPut(g, rank, memo.table, node, fft, dac, total);
    memo.table := memo.table[key := total];
  }

  /**
   * Part two, for a graph with no cycle reachable from "svr": the number of
   * enumerated paths from "svr" to "out" that pass through both "fft" and
   * "dac"; when no device lists an output twice, the number of distinct
   * such simple paths.
   */
  method SolveGold(input: seq<string>, ghost rank: map<string, nat>) returns (total: nat)
    requires RankOrders(GraphOf(input), rank) && Ranked(GraphOf(input), rank, "svr")
    ensures total == Through(Paths(GraphOf(input), "svr", {}), false, false)
    ensures NoRepeatedOutputs(GraphOf(input)) ==>
              total == |set p | p in Paths(GraphOf(input), "svr", {}) && "fft" in p && "dac" in p|
  {
    if NoRepeatedOutputs(GraphOf(input)) {
      PathsCountSimplePaths(GraphOf(input), "svr", {});
    }
    var graph := ParseInput(input);
    var memo := new Memo();
    total := CountSpecial("svr", graph, false, false, memo, rank);
    SpecialCountsPaths(graph, rank, "svr", false, false, {});
  }
}
