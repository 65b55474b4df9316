/** `graph_communities`: in-place label propagation with at most eight rounds. */
module Communities {
  import opened Wrappers
  import opened Walks
  import opened GraphPath
  import opened Order

  const ROUNDS := 8

  // ---------------------------------------------------------------- the vote

  /** The commonest label; among equals, the smallest. */
  predicate IsWinner(votes: multiset<string>, best: string) {
    best in votes && forall l :: l in votes ==> l == best || votes[l] < votes[best] || (votes[l] == votes[best] && Less(best, l))
  }

  lemma {:induction false} WinnerUnique(votes: multiset<string>, a: string, b: string)
    requires IsWinner(votes, a) && IsWinner(votes, b)
    ensures a == b
  {
    LessTotal(a, b);
  }

  /** The tally and its `max_by`, as loops. */
  method Winner(labels: seq<string>) returns (best: Option<string>)
    ensures labels == [] <==> best.None?
    ensures best.Some? ==> IsWinner(multiset(labels), best.value)
  {
    var counts: map<string, nat> := map[];
    for i := 0 to |labels|
      invariant forall l :: l in counts <==> l in multiset(labels[..i])
      invariant forall l :: l in counts ==> counts[l] == multiset(labels[..i])[l]
    {
      assert labels[..i + 1] == labels[..i] + [labels[i]];
      counts := counts[labels[i] := (if labels[i] in counts then counts[labels[i]] else 0) + 1];
    }
    assert labels[..|labels|] == labels;
    if labels == [] {
      return None;
    }
    assert labels[0] in multiset(labels);
    var todo := counts.Keys;
    var top := labels[0];
    while todo != {}
      invariant todo <= counts.Keys && top in counts
      invariant forall l :: l in counts.Keys - todo ==> l == top || counts[l] < counts[top] || (counts[l] == counts[top] && Less(top, l))
    {
      var l :| l in todo;
      todo := todo - {l};
      LessTotal(l, top);
      if counts[l] > counts[top] || (counts[l] == counts[top] && Less(l, top)) {
        forall x | x in counts.Keys - todo
          ensures x == l || counts[x] < counts[l] || (counts[x] == counts[l] && Less(l, x))
        {
          if x != l && x != top && counts[x] == counts[l] {
            LessTransitive(l, top, x);
          }
        }
        top := l;
      }
    }
    return Some(top);
  }

  // ---------------------------------------------------------------- rounds as functions

  function LabelsOf(edges: seq<GraphEdge>, labels: map<Node, string>): (r: seq<string>)
    requires forall i :: 0 <= i < |edges| ==> edges[i].to in labels
    ensures |r| == |edges| && forall i :: 0 <= i < |edges| ==> r[i] == labels[edges[i].to]
  {
    seq(|edges|, i requires 0 <= i < |edges| => labels[edges[i].to])
  }

  /** The edges with both ends among the nodes; only these carry votes. */
  function Kept(edges: seq<GraphEdge>, nodes: set<Node>): seq<GraphEdge> {
    if edges == [] then []
    else
      var rest, last := Kept(edges[..|edges| - 1], nodes), edges[|edges| - 1];
      if last.from in nodes && last.to in nodes then rest + [last] else rest
  }

  ghost predicate Closed(kept: seq<GraphEdge>, labels: map<Node, string>) {
    forall e :: e in kept ==> e.from in labels && e.to in labels
  }

  lemma {:induction false} VotersLabelled(kept: seq<GraphEdge>, labels: map<Node, string>, n: Node)
    requires Closed(kept, labels)
    ensures forall i :: 0 <= i < |Outgoing(kept, n, true)| ==> Outgoing(kept, n, true)[i].to in labels
  {
    hide Outgoing, ArcsOf;
    OutgoingArcs(kept, n, true);
    forall i | 0 <= i < |Outgoing(kept, n, true)| ensures Outgoing(kept, n, true)[i].to in labels {
      assert Outgoing(kept, n, true)[i] in Outgoing(kept, n, true);
    }
  }

  /** Node `n` takes the winning label of its neighbours, if it has any. */
  ghost predicate Relabelled(kept: seq<GraphEdge>, labels: map<Node, string>, n: Node, labels': map<Node, string>)
    requires Closed(kept, labels)
  {
    VotersLabelled(kept, labels, n);
    var voters := Outgoing(kept, n, true);
    if voters == [] then labels' == labels
    else exists best :: IsWinner(multiset(LabelsOf(voters, labels)), best) && labels' == labels[n := best]
  }

  /** `trail` records the labels before each node of a sweep and at its end. */
  ghost predicate IsSweep(kept: seq<GraphEdge>, nodes: seq<Node>, trail: seq<map<Node, string>>) {
    && |trail| == |nodes| + 1
    && (forall i :: 0 <= i < |trail| ==> Closed(kept, trail[i]))
    && forall i :: 0 <= i < |nodes| ==> Relabelled(kept, trail[i], nodes[i], trail[i + 1])
  }

  ghost predicate Swept(kept: seq<GraphEdge>, nodes: seq<Node>, labels: map<Node, string>, labels': map<Node, string>) {
    exists trail :: IsSweep(kept, nodes, trail) && trail[0] == labels && trail[|nodes|] == labels'
  }

  /** The labels after `k` full sweeps. */
  ghost predicate AfterRounds(kept: seq<GraphEdge>, nodes: seq<Node>, k: nat, labels: map<Node, string>, labels': map<Node, string>)
    decreases k
  {
    if k == 0 then labels' == labels
    else exists mid :: AfterRounds(kept, nodes, k - 1, labels, mid) && Swept(kept, nodes, mid, labels')
  }

  /** A node's new label is determined by the labels before. */
  lemma {:induction false} RelabelledOnce(kept: seq<GraphEdge>, labels: map<Node, string>, n: Node, a: map<Node, string>, b: map<Node, string>)
    requires Closed(kept, labels) && Relabelled(kept, labels, n, a) && Relabelled(kept, labels, n, b)
    ensures a == b
  {
    hide IsWinner, Outgoing;
    VotersLabelled(kept, labels, n);
    var voters := Outgoing(kept, n, true);
    if voters != [] {
      var votes := multiset(LabelsOf(voters, labels));
      var x :| IsWinner(votes, x) && a == labels[n := x];
      var y :| IsWinner(votes, y) && b == labels[n := y];
      WinnerUnique(votes, x, y);
    }
  }

  lemma {:induction false} SweepOnce(kept: seq<GraphEdge>, nodes: seq<Node>, s: seq<map<Node, string>>, t: seq<map<Node, string>>, i: nat)
    requires IsSweep(kept, nodes, s) && IsSweep(kept, nodes, t) && s[0] == t[0] && i <= |nodes|
    ensures s[i] == t[i]
    decreases i
  {
    hide Relabelled;
    if i > 0 {
      SweepOnce(kept, nodes, s, t, i - 1);
      assert Closed(kept, s[i - 1]) && Relabelled(kept, s[i - 1], nodes[i - 1], s[i - 1 + 1]);
      assert Relabelled(kept, t[i - 1], nodes[i - 1], t[i - 1 + 1]);
      RelabelledOnce(kept, s[i - 1], nodes[i - 1], s[i], t[i]);
    }
  }

  /** The labels after any number of rounds are determined by those at the start. */
  lemma {:induction false} RoundsAreDetermined(kept: seq<GraphEdge>, nodes: seq<Node>, k: nat, start: map<Node, string>, a: map<Node, string>, b: map<Node, string>)
    requires AfterRounds(kept, nodes, k, start, a) && AfterRounds(kept, nodes, k, start, b)
    ensures a == b
    decreases k
  {
    hide IsSweep;
    if k > 0 {
      var x :| AfterRounds(kept, nodes, k - 1, start, x) && Swept(kept, nodes, x, a);
      var y :| AfterRounds(kept, nodes, k - 1, start, y) && Swept(kept, nodes, y, b);
      RoundsAreDetermined(kept, nodes, k - 1, start, x, y);
      SweptOnce(kept, nodes, x, a, b);
    }
  }

  lemma {:induction false} SweptOnce(kept: seq<GraphEdge>, nodes: seq<Node>, labels: map<Node, string>, a: map<Node, string>, b: map<Node, string>)
    requires Swept(kept, nodes, labels, a) && Swept(kept, nodes, labels, b)
    ensures a == b
  {
    var s :| IsSweep(kept, nodes, s) && s[0] == labels && s[|nodes|] == a;
    var t :| IsSweep(kept, nodes, t) && t[0] == labels && t[|nodes|] == b;
    hide IsSweep;
    SweepOnce(kept, nodes, s, t, |nodes|);
  }

  /** A sweep that changes nothing stands for all the rounds that were not run. */
  lemma {:induction false} StableForever(kept: seq<GraphEdge>, nodes: seq<Node>, j: nat, k: nat, start: map<Node, string>, labels: map<Node, string>)
    requires j <= k && AfterRounds(kept, nodes, j, start, labels) && Swept(kept, nodes, labels, labels)
    ensures AfterRounds(kept, nodes, k, start, labels)
    decreases k - j
  {
    hide Swept;
    if j < k {
      assert AfterRounds(kept, nodes, j + 1, start, labels);
      StableForever(kept, nodes, j + 1, k, start, labels);
    }
  }

  // ---------------------------------------------------------------- connectivity

  ghost predicate Linked(arcs: set<Arc>, a: Node, b: Node) {
    exists w :: WalkFromTo(arcs, {a}, b, w)
  }

  lemma {:induction false} LinkedStep(arcs: set<Arc>, a: Node, b: Node, c: Node)
    requires Linked(arcs, a, b) && Arc(b, c) in arcs
    ensures Linked(arcs, a, c)
  {
    var w :| WalkFromTo(arcs, {a}, b, w);
    assert WalkFromTo(arcs, {a}, c, w + [c]);
  }

  lemma {:induction false} LinkedBackwards(arcs: set<Arc>, a: Node, b: Node, w: seq<Node>)
    requires WalkFromTo(arcs, {a}, b, w) && forall x :: x in arcs ==> Arc(x.to, x.from) in arcs
    ensures Linked(arcs, b, a)
    decreases |w|
  {
    if |w| == 1 {
      assert WalkFromTo(arcs, {b}, a, [b]);
    } else {
      assert Arc(w[0], w[1]) in arcs;
      var rest := w[1..];
      assert WalkFromTo(arcs, {w[1]}, b, rest) by {
        assert forall i :: 0 < i < |rest| ==> rest[i - 1] == w[i] && rest[i] == w[i + 1];
      }
      LinkedBackwards(arcs, w[1], b, rest);
      LinkedStep(arcs, b, w[1], a);
    }
  }

  lemma {:induction false} LinkedThrough(arcs: set<Arc>, a: Node, b: Node, c: Node)
    requires Linked(arcs, a, b) && Linked(arcs, b, c)
    ensures Linked(arcs, a, c)
  {
    var v :| WalkFromTo(arcs, {a}, b, v);
    var w :| WalkFromTo(arcs, {b}, c, w);
    var joined := v + w[1..];
    forall i | 0 < i < |joined| ensures Arc(joined[i - 1], joined[i]) in arcs {
      if i >= |v| {
        assert joined[i] == w[i - |v| + 1];
        assert joined[i - 1] == w[i - |v|];
      }
    }
    assert WalkFromTo(arcs, {a}, c, joined);
  }

  /** Every label names a node of its own component. */
  ghost predicate LabelsLinked(kept: seq<GraphEdge>, labels: map<Node, string>) {
    forall n :: n in labels ==> Linked(ArcsOf(kept, true), labels[n], n)
  }

  lemma {:induction false} SymmetricArcs(kept: seq<GraphEdge>)
    ensures forall x :: x in ArcsOf(kept, true) ==> Arc(x.to, x.from) in ArcsOf(kept, true)
  {
  }

  lemma {:induction false} RelabelKeepsLinked(kept: seq<GraphEdge>, labels: map<Node, string>, n: Node, labels': map<Node, string>)
    requires Closed(kept, labels) && LabelsLinked(kept, labels) && Relabelled(kept, labels, n, labels')
    ensures LabelsLinked(kept, labels')
  {
    hide Outgoing, ArcsOf, Linked, IsWinner;
    var arcs, voters := ArcsOf(kept, true), Outgoing(kept, n, true);
    VotersLabelled(kept, labels, n);
    if voters != [] {
      var best :| IsWinner(multiset(LabelsOf(voters, labels)), best) && labels' == labels[n := best];
      WinnerVoted(multiset(LabelsOf(voters, labels)), best);
      var i :| 0 <= i < |voters| && LabelsOf(voters, labels)[i] == best;
      OutgoingArcs(kept, n, true);
      assert voters[i] in voters && Arc(n, voters[i].to) in arcs;
      SymmetricArcs(kept);
      assert Arc(voters[i].to, n) in arcs;
      LinkedStep(arcs, best, voters[i].to, n);
    }
  }

  lemma {:induction false} WinnerVoted(votes: multiset<string>, best: string)
    requires IsWinner(votes, best)
    ensures best in votes
  {
  }

  lemma {:induction false} SweepKeepsLinked(kept: seq<GraphEdge>, nodes: seq<Node>, trail: seq<map<Node, string>>, i: nat)
    requires IsSweep(kept, nodes, trail) && LabelsLinked(kept, trail[0]) && i <= |nodes|
    ensures LabelsLinked(kept, trail[i])
    decreases i
  {
    hide Relabelled, LabelsLinked, Closed;
    if i > 0 {
      SweepKeepsLinked(kept, nodes, trail, i - 1);
      assert Closed(kept, trail[i - 1]) && Relabelled(kept, trail[i - 1], nodes[i - 1], trail[i]);
      RelabelKeepsLinked(kept, trail[i - 1], nodes[i - 1], trail[i]);
    }
  }

  /** After any number of rounds, nodes with one label lie in one component. */
  lemma {:induction false} RoundsKeepLinked(kept: seq<GraphEdge>, nodes: seq<Node>, k: nat, labels: map<Node, string>, labels': map<Node, string>)
    requires AfterRounds(kept, nodes, k, labels, labels') && LabelsLinked(kept, labels)
    ensures LabelsLinked(kept, labels')
    decreases k
  {
    hide Relabelled, LabelsLinked, Closed;
    if k > 0 {
      var mid :| AfterRounds(kept, nodes, k - 1, labels, mid) && Swept(kept, nodes, mid, labels');
      RoundsKeepLinked(kept, nodes, k - 1, labels, mid);
      var trail :| IsSweep(kept, nodes, trail) && trail[0] == mid && trail[|nodes|] == labels';
      SweepKeepsLinked(kept, nodes, trail, |nodes|);
    }
  }

  lemma {:induction false} SameLabelSameComponent(kept: seq<GraphEdge>, labels: map<Node, string>, a: Node, b: Node)
    requires LabelsLinked(kept, labels) && a in labels && b in labels && labels[a] == labels[b]
    ensures Linked(ArcsOf(kept, true), a, b)
  {
    hide ArcsOf;
    var arcs := ArcsOf(kept, true);
    SymmetricArcs(kept);
    var w :| WalkFromTo(arcs, {labels[a]}, a, w);
    LinkedBackwards(arcs, labels[a], a, w);
    LinkedThrough(arcs, a, labels[a], b);
  }

  // ---------------------------------------------------------------- the method

  method KeepInside(edges: seq<GraphEdge>, nodes: set<Node>) returns (kept: seq<GraphEdge>)
    ensures kept == Kept(edges, nodes)
  {
    kept := [];
    for i := 0 to |edges|
      invariant kept == Kept(edges[..i], nodes)
    {
      assert edges[..i + 1][..i] == edges[..i];
      if edges[i].from in nodes && edges[i].to in nodes {
        kept := kept + [edges[i]];
      }
    }
    assert edges[..|edges|] == edges;
  }

  lemma {:induction false} KeptInside(edges: seq<GraphEdge>, nodes: set<Node>)
    ensures forall e :: e in Kept(edges, nodes) <==> e in edges && e.from in nodes && e.to in nodes
  {
    if edges != [] {
      KeptInside(edges[..|edges| - 1], nodes);
      assert edges == edges[..|edges| - 1] + [edges[|edges| - 1]];
    }
  }

  /** One round, updating the labels in place. */
  method Sweep(kept: seq<GraphEdge>, adjacency: map<Node, seq<GraphEdge>>, nodes: seq<Node>, labels: map<Node, string>)
    returns (labels': map<Node, string>, changed: bool)
    requires Closed(kept, labels) && (forall i :: 0 <= i < |nodes| ==> nodes[i] in labels)
    requires forall n :: Neighbours(adjacency, n) == Outgoing(kept, n, true)
    ensures Swept(kept, nodes, labels, labels') && labels'.Keys == labels.Keys
    ensures !changed ==> labels' == labels
  {
    hide Outgoing, IsWinner;
    labels', changed := labels, false;
    ghost var trail := [labels];
    for i := 0 to |nodes|
      invariant IsSweep(kept, nodes[..i], trail) && trail[0] == labels && trail[i] == labels'
      invariant labels'.Keys == labels.Keys
      invariant !changed ==> labels' == labels
    {
      var voters := Neighbours(adjacency, nodes[i]);
      VotersLabelled(kept, labels', nodes[i]);
      var best := Winner(LabelsOf(voters, labels'));
      ghost var before := labels';
      if best.Some? {
        if labels'[nodes[i]] != best.value {
          labels' := labels'[nodes[i] := best.value];
          changed := true;
        }
        assert labels' == before[nodes[i] := best.value];
      }
      assert Relabelled(kept, before, nodes[i], labels');
      ExtendSweep(kept, nodes, i, trail, labels');
      trail := trail + [labels'];
    }
    assert nodes[..|nodes|] == nodes;
    assert trail[|nodes|] == labels';
  }

  lemma {:induction false} ExtendSweep(kept: seq<GraphEdge>, nodes: seq<Node>, i: nat, trail: seq<map<Node, string>>, next: map<Node, string>)
    requires i < |nodes| && IsSweep(kept, nodes[..i], trail) && Closed(kept, next)
    requires Relabelled(kept, trail[i], nodes[i], next)
    ensures IsSweep(kept, nodes[..i + 1], trail + [next])
  {
    hide Relabelled, Closed;
    var trail', nodes' := trail + [next], nodes[..i + 1];
    forall j | 0 <= j < |trail'| ensures Closed(kept, trail'[j]) {
      assert j < |trail| ==> trail'[j] == trail[j];
    }
    forall j | 0 <= j < |nodes'| ensures Relabelled(kept, trail'[j], nodes'[j], trail'[j + 1]) {
      if j < i {
        assert nodes'[j] == nodes[..i][j] && trail'[j] == trail[j] && trail'[j + 1] == trail[j + 1];
      }
    }
  }

  function Position(sorted: seq<string>, l: string): (i: nat)
    requires l in sorted
    ensures i < |sorted| && sorted[i] == l
  {
    if sorted[0] == l then 0 else 1 + Position(sorted[1..], l)
  }

  predicate Uses(ids: map<Node, nat>, c: nat) {
    exists n :: n in ids && ids[n] == c
  }

  /** What the community numbers promise: the final labels, numbered 1..k in their order. */
  ghost predicate Numbered(labels: map<Node, string>, ids: map<Node, nat>, k: nat) {
    && ids.Keys == labels.Keys
    && (forall n :: n in ids ==> 1 <= ids[n] <= k)
    && (forall c :: 1 <= c <= k ==> Uses(ids, c))
    && (forall a, b :: a in ids && b in ids ==> (ids[a] == ids[b] <==> labels[a] == labels[b]))
    && (forall a, b :: a in ids && b in ids ==> (ids[a] < ids[b] <==> Less(labels[a], labels[b])))
  }

  method Number(labels: map<Node, string>) returns (ids: map<Node, nat>, k: nat)
    ensures Numbered(labels, ids, k)
  {
    hide Position, Increasing, Sorted, Numbered;
    var used := set n | n in labels :: labels[n];
    var sorted := Sorted(used);
    SortedIncreases(used);
    k := |sorted|;
    ids := map n | n in labels :: Position(sorted, labels[n]) + 1;
    NumberedBy(labels, sorted, ids);
  }

  predicate HasLabel(labels: map<Node, string>, l: string) {
    exists n :: n in labels && labels[n] == l
  }

  lemma {:induction false} NumberedBy(labels: map<Node, string>, sorted: seq<string>, ids: map<Node, nat>)
    requires Increasing(sorted)
    requires forall l {:trigger HasLabel(labels, l)} :: l in sorted ==> HasLabel(labels, l)
    requires ids.Keys == labels.Keys
    requires forall n :: n in labels ==> 1 <= ids[n] <= |sorted| && sorted[ids[n] - 1] == labels[n]
    ensures Numbered(labels, ids, |sorted|)
  {
    hide Less, Increasing;
    forall c | 1 <= c <= |sorted| ensures Uses(ids, c) {
      assert HasLabel(labels, sorted[c - 1]);
      var n :| n in labels && labels[n] == sorted[c - 1];
      PositionsOrdered(sorted, ids[n] - 1, c - 1);
      assert ids[n] == c;
    }
    forall a, b | a in ids && b in ids
      ensures ids[a] == ids[b] <==> labels[a] == labels[b]
      ensures ids[a] < ids[b] <==> Less(labels[a], labels[b])
    {
      PositionsOrdered(sorted, ids[a] - 1, ids[b] - 1);
    }
  }

  lemma {:induction false} PositionsOrdered(sorted: seq<string>, i: nat, j: nat)
    requires Increasing(sorted) && i < |sorted| && j < |sorted|
    ensures i == j <==> sorted[i] == sorted[j]
    ensures i < j <==> Less(sorted[i], sorted[j])
  {
    hide Less;
    LessTotal(sorted[i], sorted[j]);
  }

  /**
   The communities of a graph: the labels after the full eight rounds (an early stop changes
   nothing), numbered 1..k; two nodes of one community are connected.
   */
  method GraphCommunities(nodes: seq<Node>, edges: seq<GraphEdge>) returns (ids: map<Node, nat>, ghost labels: map<Node, string>, ghost k: nat)
    ensures var start := map n | n in nodes :: n;
            AfterRounds(Kept(edges, set n | n in nodes), nodes, 8, start, labels)
    ensures Numbered(labels, ids, k) && (forall n :: n in ids <==> n in nodes)
    ensures forall a, b :: a in ids && b in ids && ids[a] == ids[b] ==> Linked(ArcsOf(Kept(edges, set n | n in nodes), true), a, b)
  {
    hide Swept, Outgoing, Kept, ArcsOf, Linked, Numbered, AfterRounds;
    ghost var start: map<Node, string> := map n | n in nodes :: n;
    var inside := set n | n in nodes;
    var kept := KeepInside(edges, inside);
    KeptInside(edges, inside);
    var adjacency := BuildAdjacency(kept, true);
    var current: map<Node, string> := map n | n in nodes :: n;
    NoRounds(kept, nodes, start);
    var round := 0;
    while round < ROUNDS
      invariant 0 <= round <= ROUNDS
      invariant AfterRounds(kept, nodes, round, start, current)
      invariant current.Keys == inside
    {
      ghost var before := current;
      var changed;
      current, changed := Sweep(kept, adjacency, nodes, current);
      OneMoreRound(kept, nodes, round, start, before, current);
      round := round + 1;
      if !changed {
        StableForever(kept, nodes, round, ROUNDS, start, current);
        break;
      }
    }
    assert AfterRounds(kept, nodes, ROUNDS, start, current);
    labels := current;
    ids, k := Number(current);
    StartLinked(kept, nodes);
    RoundsKeepLinked(kept, nodes, ROUNDS, start, current);
    forall a, b | a in ids && b in ids && ids[a] == ids[b] ensures Linked(ArcsOf(kept, true), a, b) {
      NumbersFollowLabels(labels, ids, k, a, b);
      SameLabelSameComponent(kept, labels, a, b);
    }
    NumberedKeys(labels, ids, k);
  }

  lemma {:induction false} NoRounds(kept: seq<GraphEdge>, nodes: seq<Node>, labels: map<Node, string>)
    ensures AfterRounds(kept, nodes, 0, labels, labels)
  {
  }

  lemma {:induction false} OneMoreRound(kept: seq<GraphEdge>, nodes: seq<Node>, k: nat, start: map<Node, string>, labels: map<Node, string>, labels': map<Node, string>)
    requires AfterRounds(kept, nodes, k, start, labels) && Swept(kept, nodes, labels, labels')
    ensures AfterRounds(kept, nodes, k + 1, start, labels')
  {
    hide Swept;
  }

  lemma {:induction false} StartLinked(kept: seq<GraphEdge>, nodes: seq<Node>)
    ensures LabelsLinked(kept, map n | n in nodes :: n)
  {
    hide ArcsOf;
    forall n | n in nodes ensures Linked(ArcsOf(kept, true), n, n) {
      assert WalkFromTo(ArcsOf(kept, true), {n}, n, [n]);
    }
  }

  lemma {:induction false} NumbersFollowLabels(labels: map<Node, string>, ids: map<Node, nat>, k: nat, a: Node, b: Node)
    requires Numbered(labels, ids, k) && a in ids && b in ids
    ensures a in labels && b in labels && (ids[a] == ids[b] <==> labels[a] == labels[b])
  {
  }

  lemma {:induction false} NumberedKeys(labels: map<Node, string>, ids: map<Node, nat>, k: nat)
    requires Numbered(labels, ids, k)
    ensures ids.Keys == labels.Keys
  {
  }
}
