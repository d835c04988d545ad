/**
  Downstream neutralisation (attack_harpoon.py:19-51, 81-91): from the output
  `inst.Q` of every obfuscated flip-flop, a depth-first walk over fanout edges
  stops at the first two-input gate or black-box input on each path, cuts the
  edge it arrived by and rewrites the gate to a single-input one; afterwards
  every original flip-flop's reset port is driven from the net `reset`.
  */
module Neutralizer {
  import opened CircuitGraph
  import opened GateRewrite
  import opened PortNames
  import opened ResetClassifier

  /** The parent name passed with each root (attack_harpoon.py:84). */
  const DUMMY_PARENT: Name := "DUMMY_INPUT"

  /** The external reset net (attack_harpoon.py:91). */
  const RESET_NET: Name := "reset"

  /** How the pipeline ends: a port name that names no node aborts it. */
  datatype Outcome = Cleaned | MalformedReference(name: Name)

  /** The edges a walk cut: for each affected node `a`, the edge from `cutFrom[a]` into it. */
  ghost function CutEdges(cutFrom: map<Name, Name>): set<Edge> {
    set a | a in cutFrom :: Edge(cutFrom[a], a)
  }

  /** The kinds change only on the nodes of `hit`, each to its rewritten kind. */
  ghost predicate KindsRewritten(k0: map<Name, Kind>, k1: map<Name, Kind>, hit: set<Name>) {
    && k1.Keys == k0.Keys
    && forall n :: n in k0 ==> k1[n] == if n in hit then AffectedKind(k0[n]) else k0[n]
  }

  /** The newly visited nodes `seen` are nodes; the affected ones `hit` are exactly those of a cut-point kind. */
  ghost predicate Classified(k0: map<Name, Kind>, seen: set<Name>, hit: set<Name>) {
    && seen <= k0.Keys
    && hit <= seen
    && forall n :: n in seen ==> (n in hit <==> IsAffectedKind(k0[n]))
  }

  /** Every load of a node of `from` has been visited. */
  ghost predicate FanoutVisited(e0: set<Edge>, from: set<Name>, visited: set<Name>) {
    forall n, c :: n in from && Edge(n, c) in e0 ==> c in visited
  }

  /**
    `order` lists the newly visited nodes `seen` in the order they were entered,
    each once: the root first, and every later node from an earlier pass-through node.
    */
  ghost predicate EnteredInOrder(e0: set<Edge>, root: Name, seen: set<Name>, hit: set<Name>, order: seq<Name>) {
    && (forall n :: n in seen <==> n in order)
    && (forall i, j :: 0 <= i < j < |order| ==> order[i] != order[j])
    && (order != [] ==> order[0] == root)
    && forall j :: 0 < j < |order| ==> exists k :: 0 <= k < j && order[k] !in hit && Edge(order[k], order[j]) in e0
  }

  /**
    Each affected node had exactly one in-edge cut: from `parent` for the root,
    and otherwise from some visited pass-through driver of it (which one, among
    several, is left open).
    */
  ghost predicate CutAtEntry(e0: set<Edge>, root: Name, parent: Name, seen: set<Name>, hit: set<Name>, cutFrom: map<Name, Name>) {
    && cutFrom.Keys == hit
    && forall a :: a in cutFrom ==>
         if a == root then cutFrom[a] == parent
         else cutFrom[a] in seen && cutFrom[a] !in hit && Edge(cutFrom[a], a) in e0
  }

  lemma CutEdgesUnion(m1: map<Name, Name>, m2: map<Name, Name>)
    requires m1.Keys !! m2.Keys
    ensures CutEdges(m1 + m2) == CutEdges(m1) + CutEdges(m2)
  {
    forall e | e in CutEdges(m1 + m2) ensures e in CutEdges(m1) + CutEdges(m2) {
      var a :| a in m1 + m2 && e == Edge((m1 + m2)[a], a);
      if a in m2 { assert e == Edge(m2[a], a); } else { assert e == Edge(m1[a], a); }
    }
    forall e | e in CutEdges(m1) + CutEdges(m2) ensures e in CutEdges(m1 + m2) {
      if e in CutEdges(m1) {
        var a :| a in m1 && e == Edge(m1[a], a);
        assert (m1 + m2)[a] == m1[a];
      } else {
        var a :| a in m2 && e == Edge(m2[a], a);
        assert (m1 + m2)[a] == m2[a];
      }
    }
  }

  lemma CutEdgeDst(cutFrom: map<Name, Name>, e: Edge)
    requires e in CutEdges(cutFrom)
    ensures e.dst in cutFrom && e.src == cutFrom[e.dst]
  {
  }

  /**
    Two rounds of rewriting are one round over both sets of nodes, even where
    they overlap, because a rewritten node is rewritten to what it already is.
    */
  lemma KindsRewrittenCompose(k0: map<Name, Kind>, k1: map<Name, Kind>, k2: map<Name, Kind>, h1: set<Name>, h2: set<Name>)
    requires KindsRewritten(k0, k1, h1) && KindsRewritten(k1, k2, h2)
    ensures KindsRewritten(k0, k2, h1 + h2)
  {
    forall n | n in k0 && n in h1 && n in h2
      ensures k2[n] == AffectedKind(k0[n])
    {
      RewriteSettles(k0[n]);
    }
  }

  /** A node that is a cut point after rewriting was a cut point before. */
  lemma CutPointBeforeRewrite(k0: map<Name, Kind>, k1: map<Name, Kind>, hit: set<Name>, n: Name)
    requires KindsRewritten(k0, k1, hit) && n in k0 && IsAffectedKind(k1[n])
    ensures IsAffectedKind(k0[n])
  {
    RewriteSettles(k0[n]);
  }

  /**
    The effect of a walk from `root` entered from `parent`, started with the
    sets `visited` and `affected` on the graph (`k0`, `e0`) and ended with
    `visited1`, `affected1` on the graph (`k1`, `e1`). The nodes it visited are
    graph nodes; the affected ones are exactly those of a cut-point kind; the
    loads of every pass-through node it visited (except those of `pending`,
    still being walked) were visited; `order` is the order in which it
    entered its nodes, each after the root from an earlier pass-through node; each affected node
    lost exactly the edge it was entered by, and no other edge was removed;
    only the affected nodes changed kind, each to its rewritten kind.
    */
  ghost predicate Walked(k0: map<Name, Kind>, e0: set<Edge>, k1: map<Name, Kind>, e1: set<Edge>,
                         root: Name, parent: Name, visited: set<Name>, affected: set<Name>,
                         visited1: set<Name>, affected1: set<Name>, cutFrom: map<Name, Name>, order: seq<Name>,
                         pending: set<Name>)
  {
    && visited <= visited1 && affected <= affected1 <= visited1 && root in visited1
    && Classified(k0, visited1 - visited, affected1 - affected)
    && FanoutVisited(e0, (visited1 - visited) - (affected1 - affected) - pending, visited1)
    && EnteredInOrder(e0, root, visited1 - visited, affected1 - affected, order)
    && CutAtEntry(e0, root, parent, visited1 - visited, affected1 - affected, cutFrom)
    && e1 == e0 - CutEdges(cutFrom)
    && KindsRewritten(k0, k1, affected1 - affected)
  }

  /**
    fix_affected_nodes (attack_harpoon.py:19-51). The visited and affected sets
    are threaded through the calls, which is what the source's in-place updates
    of one shared set amount to. The identity test `fanout(node) is set()` at
    line 26 never holds, so the only stop besides "already visited" is a cut
    point or an empty fanout loop. The loads of a pass-through node are taken
    once, before the loop, in some order (the source iterates a set).
    */
  method FixAffectedNodes(ck: Circuit, node: Name, parent: Name, affected: set<Name>, visited: set<Name>)
      returns (affected': set<Name>, visited': set<Name>, ghost cutFrom: map<Name, Name>, ghost order: seq<Name>)
    requires ck.Valid()
    requires node in visited || node in ck.kinds
    requires affected <= visited
    modifies ck
    decreases |ck.kinds.Keys - visited|
    ensures ck.Valid()
    // already visited: nothing changes (lines 26-27)
    ensures node in visited ==>
      visited' == visited && affected' == affected && ck.kinds == old(ck.kinds) && ck.edges == old(ck.edges)
    // a cut point: recorded, cut from its parent, rewritten, not descended into (lines 29-42)
    ensures node !in visited && IsAffectedKind(old(ck.kinds)[node]) ==>
      && visited' == visited + {node} && affected' == affected + {node}
      && ck.edges == old(ck.edges) - {Edge(parent, node)}
      && ck.kinds == old(ck.kinds)[node := AffectedKind(old(ck.kinds)[node])]
    // in general: what was explored, and that nothing else changed (lines 44-51)
    ensures Walked(old(ck.kinds), old(ck.edges), ck.kinds, ck.edges, node, parent,
                   visited, affected, visited', affected', cutFrom, order, {})
  {
    if node in visited {
      NothingWalked(ck.kinds, ck.edges, node, parent, visited, affected);
      return affected, visited, map[], [];
    }
    visited' := visited + {node};
    var kind := ck.kinds[node];
    if IsAffectedKind(kind) {
      affected' := affected + {node};
      ck.Disconnect(parent, node);
      ck.SetType(node, AffectedKind(kind));
      cutFrom := map[node := parent];
      order := [node];
      CutPointWalked(old(ck.kinds), old(ck.edges), node, parent, visited, affected);
      return;
    }
    affected' := affected;
    cutFrom := map[];
    order := [node];
    var children := ck.Fanout(node);
    var todo := children;
    StartWalk(ck.kinds, ck.edges, node, parent, visited, affected);
    while todo != {}
      invariant todo <= children
      invariant ck.Valid()
      invariant visited + {node} <= visited'
      invariant forall c :: c in children - todo ==> c in visited'
      invariant Walked(old(ck.kinds), old(ck.edges), ck.kinds, ck.edges, node, parent,
                       visited, affected, visited', affected', cutFrom, order, {node})
      decreases todo
    {
      var child :| child in todo;
      todo := todo - {child};
      ghost var v0, a0, c0, o0, e0, k0 := visited', affected', cutFrom, order, ck.edges, ck.kinds;
      DiffShrinks(ck.kinds.Keys, visited, visited', node);
      ghost var cutChild, orderChild;
      affected', visited', cutChild, orderChild := FixAffectedNodes(ck, child, node, affected', visited');
      cutFrom, order := c0 + cutChild, o0 + orderChild;
      Compose(old(ck.kinds), old(ck.edges), node, parent, visited, affected, children, child,
              v0, a0, c0, o0, e0, k0, visited', affected', cutChild, orderChild, ck.edges, ck.kinds);
    }
    FinishWalk(old(ck.kinds), old(ck.edges), ck.kinds, ck.edges, node, parent, visited, affected,
               visited', affected', cutFrom, order, children);
  }

  lemma NothingWalked(k0: map<Name, Kind>, e0: set<Edge>, node: Name, parent: Name, visited: set<Name>, affected: set<Name>)
    requires node in visited && affected <= visited
    ensures Walked(k0, e0, k0, e0, node, parent, visited, affected, visited, affected, map[], [], {})
  {
    assert CutEdges(map[]) == {};
  }

  lemma CutPointWalked(k0: map<Name, Kind>, e0: set<Edge>, node: Name, parent: Name, visited: set<Name>, affected: set<Name>)
    requires node !in visited && affected <= visited && node in k0 && IsAffectedKind(k0[node])
    ensures Walked(k0, e0, k0[node := AffectedKind(k0[node])], e0 - {Edge(parent, node)}, node, parent,
                   visited, affected, visited + {node}, affected + {node}, map[node := parent], [node], {})
  {
    var cut := map[node := parent];
    assert (visited + {node}) - visited == {node} && (affected + {node}) - affected == {node};
    assert node in cut && cut[node] == parent;
    assert CutEdges(cut) == {Edge(parent, node)};
  }

  lemma StartWalk(k0: map<Name, Kind>, e0: set<Edge>, node: Name, parent: Name, visited: set<Name>, affected: set<Name>)
    requires node !in visited && affected <= visited && node in k0 && !IsAffectedKind(k0[node])
    ensures Walked(k0, e0, k0, e0, node, parent, visited, affected, visited + {node}, affected, map[], [node], {node})
  {
    assert (visited + {node}) - visited == {node} && affected - affected == {};
    assert CutEdges(map[]) == {};
  }

  lemma FinishWalk(k0: map<Name, Kind>, e0: set<Edge>, k1: map<Name, Kind>, e1: set<Edge>,
                   node: Name, parent: Name, visited: set<Name>, affected: set<Name>,
                   visited1: set<Name>, affected1: set<Name>, cutFrom: map<Name, Name>, order: seq<Name>,
                   children: set<Name>)
    requires Walked(k0, e0, k1, e1, node, parent, visited, affected, visited1, affected1, cutFrom, order, {node})
    requires forall c :: c in children <==> Edge(node, c) in e0
    requires children <= visited1
    ensures Walked(k0, e0, k1, e1, node, parent, visited, affected, visited1, affected1, cutFrom, order, {})
  {
  }

  /** One round of the loop in FixAffectedNodes: the walk into `child` extends the walk from `node`. */
  lemma Compose(
      kinds: map<Name, Kind>, edges: set<Edge>, node: Name, parent: Name, visited: set<Name>, affected: set<Name>,
      children: set<Name>, child: Name,
      v0: set<Name>, a0: set<Name>, c0: map<Name, Name>, o0: seq<Name>, e0: set<Edge>, k0: map<Name, Kind>,
      v1: set<Name>, a1: set<Name>, cutChild: map<Name, Name>, oc: seq<Name>, e1: set<Edge>, k1: map<Name, Kind>)
    requires node !in visited && node in kinds && !IsAffectedKind(kinds[node])
    requires child in children && forall c :: c in children <==> Edge(node, c) in edges
    requires Walked(kinds, edges, k0, e0, node, parent, visited, affected, v0, a0, c0, o0, {node})
    requires Walked(k0, e0, k1, e1, child, node, v0, a0, v1, a1, cutChild, oc, {})
    ensures Walked(kinds, edges, k1, e1, node, parent, visited, affected, v1, a1, c0 + cutChild, o0 + oc, {node})
  {
    ComposeWhat(kinds, edges, node, parent, visited, affected, children, child,
                 v0, a0, c0, o0, e0, k0, v1, a1, cutChild, oc, e1, k1);
    ComposeHow(kinds, edges, node, parent, visited, affected, children, child,
                 v0, a0, c0, o0, e0, k0, v1, a1, cutChild, oc, e1, k1);
  }

  /** The first half of Compose: which nodes the combined walk visited, classified and rewrote. */
  lemma ComposeWhat(
      kinds: map<Name, Kind>, edges: set<Edge>, node: Name, parent: Name, visited: set<Name>, affected: set<Name>,
      children: set<Name>, child: Name,
      v0: set<Name>, a0: set<Name>, c0: map<Name, Name>, o0: seq<Name>, e0: set<Edge>, k0: map<Name, Kind>,
      v1: set<Name>, a1: set<Name>, cutChild: map<Name, Name>, oc: seq<Name>, e1: set<Edge>, k1: map<Name, Kind>)
    requires node !in visited && node in kinds && !IsAffectedKind(kinds[node])
    requires child in children && forall c :: c in children <==> Edge(node, c) in edges
    requires Walked(kinds, edges, k0, e0, node, parent, visited, affected, v0, a0, c0, o0, {node})
    requires Walked(k0, e0, k1, e1, child, node, v0, a0, v1, a1, cutChild, oc, {})
    ensures visited <= v1 && affected <= a1 <= v1 && node in v1
    ensures Classified(kinds, v1 - visited, a1 - affected)
    ensures FanoutVisited(edges, (v1 - visited) - (a1 - affected) - {node}, v1)
    ensures KindsRewritten(kinds, k1, a1 - affected)
  {
    var s0, h0, sc, hc := v0 - visited, a0 - affected, v1 - v0, a1 - a0;
    assert v1 - visited == s0 + sc && a1 - affected == h0 + hc;
    assert (s0 + sc) - (h0 + hc) - {node} == (s0 - h0 - {node}) + (sc - hc);
    ComposeKinds(kinds, k0, k1, s0, h0, sc, hc);
    ComposeFanout(edges, e0, c0, s0 - h0 - {node}, sc - hc, v0, v1);
  }

  /** The second half of Compose: the order of entry and the edges cut. */
  lemma ComposeHow(
      kinds: map<Name, Kind>, edges: set<Edge>, node: Name, parent: Name, visited: set<Name>, affected: set<Name>,
      children: set<Name>, child: Name,
      v0: set<Name>, a0: set<Name>, c0: map<Name, Name>, o0: seq<Name>, e0: set<Edge>, k0: map<Name, Kind>,
      v1: set<Name>, a1: set<Name>, cutChild: map<Name, Name>, oc: seq<Name>, e1: set<Edge>, k1: map<Name, Kind>)
    requires node !in visited && node in kinds && !IsAffectedKind(kinds[node])
    requires child in children && forall c :: c in children <==> Edge(node, c) in edges
    requires Walked(kinds, edges, k0, e0, node, parent, visited, affected, v0, a0, c0, o0, {node})
    requires Walked(k0, e0, k1, e1, child, node, v0, a0, v1, a1, cutChild, oc, {})
    ensures EnteredInOrder(edges, node, v1 - visited, a1 - affected, o0 + oc)
    ensures CutAtEntry(edges, node, parent, v1 - visited, a1 - affected, c0 + cutChild)
    ensures e1 == edges - CutEdges(c0 + cutChild)
  {
    var s0, h0, sc, hc := v0 - visited, a0 - affected, v1 - v0, a1 - a0;
    assert v1 - visited == s0 + sc && a1 - affected == h0 + hc;
    assert node !in h0;
    ComposeEntered(edges, e0, node, child, s0, h0, sc, hc, o0, oc);
    ComposeCut(edges, e0, node, parent, child, s0, h0, sc, hc, c0, cutChild);
    CutEdgesUnion(c0, cutChild);
  }

  lemma ComposeKinds(kinds: map<Name, Kind>, k0: map<Name, Kind>, k1: map<Name, Kind>,
                     s0: set<Name>, h0: set<Name>, sc: set<Name>, hc: set<Name>)
    requires s0 !! sc && h0 <= s0
    requires Classified(kinds, s0, h0) && KindsRewritten(kinds, k0, h0)
    requires Classified(k0, sc, hc) && KindsRewritten(k0, k1, hc)
    ensures Classified(kinds, s0 + sc, h0 + hc)
    ensures KindsRewritten(kinds, k1, h0 + hc)
  {
    forall n | n in sc ensures k0[n] == kinds[n] { assert n !in h0; }
    KindsRewrittenCompose(kinds, k0, k1, h0, hc);
  }

  lemma ComposeFanout(edges: set<Edge>, e0: set<Edge>, c0: map<Name, Name>,
                      p0: set<Name>, pc: set<Name>, v0: set<Name>, v1: set<Name>)
    requires e0 == edges - CutEdges(c0) && c0.Keys <= v0 <= v1
    requires FanoutVisited(edges, p0, v0)
    requires FanoutVisited(e0, pc, v1)
    ensures FanoutVisited(edges, p0 + pc, v1)
  {
    forall n, c | n in p0 + pc && Edge(n, c) in edges ensures c in v1 {
      if n in pc && Edge(n, c) !in e0 {
        CutEdgeDst(c0, Edge(n, c));
      }
    }
  }

  lemma ComposeEntered(edges: set<Edge>, e0: set<Edge>, node: Name, child: Name,
                       s0: set<Name>, h0: set<Name>, sc: set<Name>, hc: set<Name>, o0: seq<Name>, oc: seq<Name>)
    requires e0 <= edges && s0 !! sc && hc <= sc && h0 <= s0
    requires node in s0 && node !in h0 && Edge(node, child) in edges
    requires EnteredInOrder(edges, node, s0, h0, o0)
    requires EnteredInOrder(e0, child, sc, hc, oc)
    ensures EnteredInOrder(edges, node, s0 + sc, h0 + hc, o0 + oc)
  {
    var o := o0 + oc;
    DistinctConcat(s0, sc, o0, oc);
    assert o0 != [] && o0[0] == node;
    forall j | 0 < j < |o| ensures exists k :: 0 <= k < j && o[k] !in h0 + hc && Edge(o[k], o[j]) in edges {
      if j < |o0| {
        var k :| 0 <= k < j && o0[k] !in h0 && Edge(o0[k], o0[j]) in edges;
        assert o[k] == o0[k] && o0[k] in s0 && o[j] == o0[j];
      } else if j == |o0| {
        assert o[j] == oc[0] == child && o[0] == node;
      } else {
        var jc := j - |o0|;
        var k :| 0 <= k < jc && oc[k] !in hc && Edge(oc[k], oc[jc]) in e0;
        assert o[|o0| + k] == oc[k] && oc[k] in sc && o[j] == oc[jc];
      }
    }
  }

  /** Two repetition-free orders of disjoint sets concatenate to a repetition-free order. */
  lemma DistinctConcat(s0: set<Name>, sc: set<Name>, o0: seq<Name>, oc: seq<Name>)
    requires s0 !! sc
    requires forall n :: n in o0 ==> n in s0
    requires forall n :: n in oc ==> n in sc
    requires forall i, j :: 0 <= i < j < |o0| ==> o0[i] != o0[j]
    requires forall i, j :: 0 <= i < j < |oc| ==> oc[i] != oc[j]
    ensures forall i, j :: 0 <= i < j < |o0 + oc| ==> (o0 + oc)[i] != (o0 + oc)[j]
  {
    var o := o0 + oc;
    forall i, j | 0 <= i < j < |o| ensures o[i] != o[j] {
      if j < |o0| {
        assert o[i] == o0[i] && o[j] == o0[j];
      } else if i >= |o0| {
        assert o[i] == oc[i - |o0|] && o[j] == oc[j - |o0|];
      } else {
        assert o[i] == o0[i] && o0[i] in s0;
        assert o[j] == oc[j - |o0|] && oc[j - |o0|] in sc;
      }
    }
  }

  lemma ComposeCut(edges: set<Edge>, e0: set<Edge>, node: Name, parent: Name, child: Name,
                   s0: set<Name>, h0: set<Name>, sc: set<Name>, hc: set<Name>,
                   c0: map<Name, Name>, cutChild: map<Name, Name>)
    requires e0 <= edges && s0 !! sc && hc <= sc && h0 <= s0
    requires node in s0 && node !in h0 && Edge(node, child) in edges
    requires CutAtEntry(edges, node, parent, s0, h0, c0)
    requires CutAtEntry(e0, child, node, sc, hc, cutChild)
    ensures CutAtEntry(edges, node, parent, s0 + sc, h0 + hc, c0 + cutChild)
  {
    var cut := c0 + cutChild;
    forall a | a in cut
      ensures if a == node then cut[a] == parent
              else cut[a] in s0 + sc && cut[a] !in h0 + hc && Edge(cut[a], a) in edges
    {
      if a in cutChild {
        assert a in hc && a != node;
        if a == child {
          assert cut[a] == node;
        } else {
          assert cutChild[a] in sc && cutChild[a] !in hc && Edge(cutChild[a], a) in e0;
        }
      } else {
        assert a in h0;
      }
    }
  }

  /**
    A walk started with nothing visited reaches every node that a path of
    edges from the root through pass-through nodes leads to; so the first
    cut point on every such path is affected.
    */
  lemma {:induction false} FreshWalkReachesCutPoints(
      k0: map<Name, Kind>, e0: set<Edge>, root: Name, seen: set<Name>, hit: set<Name>, p: seq<Name>)
    requires root in seen && Classified(k0, seen, hit) && FanoutVisited(e0, seen - hit, seen)
    requires PassPath(k0, e0, p) && p[0] == root
    ensures forall j :: 0 <= j < |p| ==> p[j] in seen
    ensures p[|p| - 1] in k0 && IsAffectedKind(k0[p[|p| - 1]]) ==> p[|p| - 1] in hit
  {
    if |p| > 1 {
      var q := p[..|p| - 1];
      FreshWalkReachesCutPoints(k0, e0, root, seen, hit, q);
      var m := p[|p| - 2];
      assert m == q[|q| - 1] && m in seen && m !in hit;
      assert Edge(m, p[|p| - 1]) in e0;
    }
  }

  /** `p` follows edges of `e0` from `p[0]` to its last node, through pass-through nodes only. */
  ghost predicate PassPath(k0: map<Name, Kind>, e0: set<Edge>, p: seq<Name>) {
    && |p| >= 1
    && forall j :: 0 <= j < |p| - 1 ==> Edge(p[j], p[j + 1]) in e0 && p[j] in k0 && !IsAffectedKind(k0[p[j]])
  }

  /** A pass-through path leads from `root` to `n` (the empty one when `n` is the root). */
  ghost predicate ReachedThrough(k0: map<Name, Kind>, e0: set<Edge>, root: Name, n: Name) {
    exists p :: PassPath(k0, e0, p) && p[0] == root && p[|p| - 1] == n
  }

  /** Each node of a visiting order has a pass-through path from the root. */
  lemma {:induction false} EnteredNodeReached(
      k0: map<Name, Kind>, e0: set<Edge>, root: Name, seen: set<Name>, hit: set<Name>, order: seq<Name>, j: nat)
    requires Classified(k0, seen, hit)
    requires (forall n :: n in order ==> n in seen) && order != [] && order[0] == root
    requires forall j :: 0 < j < |order| ==> exists k :: 0 <= k < j && order[k] !in hit && Edge(order[k], order[j]) in e0
    requires j < |order|
    decreases j
    ensures ReachedThrough(k0, e0, root, order[j])
  {
    if j == 0 {
      assert PassPath(k0, e0, [root]) && [root][0] == root;
    } else {
      var k :| 0 <= k < j && order[k] !in hit && Edge(order[k], order[j]) in e0;
      EnteredNodeReached(k0, e0, root, seen, hit, order, k);
      var p :| PassPath(k0, e0, p) && p[0] == root && p[|p| - 1] == order[k];
      assert order[k] in seen;
      var q := p + [order[j]];
      forall i | 0 <= i < |q| - 1
        ensures Edge(q[i], q[i + 1]) in e0 && q[i] in k0 && !IsAffectedKind(k0[q[i]])
      {
        if i < |p| - 1 {
          assert q[i] == p[i] && q[i + 1] == p[i + 1];
        } else {
          assert q[i] == order[k] && q[i + 1] == order[j];
        }
      }
      assert PassPath(k0, e0, q) && q[0] == root && q[|q| - 1] == order[j];
    }
  }

  /**
    A walk started with nothing visited visits exactly the nodes that a
    pass-through path from the root leads to, and affects exactly the cut
    points among them, i.e. the first cut point on each such path.
    */
  lemma FreshWalkExact(k0: map<Name, Kind>, e0: set<Edge>, k1: map<Name, Kind>, e1: set<Edge>,
                       root: Name, parent: Name, visited1: set<Name>, affected1: set<Name>,
                       cutFrom: map<Name, Name>, order: seq<Name>)
    requires Walked(k0, e0, k1, e1, root, parent, {}, {}, visited1, affected1, cutFrom, order, {})
    ensures forall n :: n in visited1 <==> ReachedThrough(k0, e0, root, n)
    ensures forall n :: n in affected1 <==> ReachedThrough(k0, e0, root, n) && n in k0 && IsAffectedKind(k0[n])
  {
    assert visited1 - {} == visited1 && affected1 - {} == affected1;
    assert visited1 - affected1 - {} == visited1 - affected1;
    forall n ensures n in visited1 <==> ReachedThrough(k0, e0, root, n) {
      if n in visited1 {
        var j :| 0 <= j < |order| && order[j] == n;
        EnteredNodeReached(k0, e0, root, visited1, affected1, order, j);
      }
      if ReachedThrough(k0, e0, root, n) {
        var p :| PassPath(k0, e0, p) && p[0] == root && p[|p| - 1] == n;
        FreshWalkReachesCutPoints(k0, e0, root, visited1, affected1, p);
      }
    }
  }

  /** One walk of the driver loop: its root, the sets it returned, and its ghost record. */
  datatype Walk = Walk(root: Name, visited: set<Name>, affected: set<Name>, cutFrom: map<Name, Name>, order: seq<Name>)

  /**
    `walks[i]` is a fresh walk from `inst.Q` of `obfuscated[i]` that took the
    graph from (`ks[i]`, `es[i]`) to (`ks[i + 1]`, `es[i + 1]`).
    */
  ghost predicate WalksChained(obfuscated: seq<Name>, ks: seq<map<Name, Kind>>, es: seq<set<Edge>>, walks: seq<Walk>) {
    && |walks| <= |obfuscated| && |ks| == |walks| + 1 && |es| == |walks| + 1
    && forall i :: 0 <= i < |walks| ==>
         && walks[i].root == PortOf(obfuscated[i], 'Q')
         && Walked(ks[i], es[i], ks[i + 1], es[i + 1], walks[i].root, DUMMY_PARENT, {}, {},
                   walks[i].visited, walks[i].affected, walks[i].cutFrom, walks[i].order, {})
  }

  /**
    Walk `i` of the driver loop visits exactly the nodes that a pass-through
    path from its `inst.Q` reaches in the graph the earlier walks left, and
    affects exactly the first cut points on those paths.
    */
  lemma ChainedWalkExact(obfuscated: seq<Name>, ks: seq<map<Name, Kind>>, es: seq<set<Edge>>, walks: seq<Walk>, i: nat)
    requires WalksChained(obfuscated, ks, es, walks) && i < |walks|
    ensures forall n :: n in walks[i].visited <==> ReachedThrough(ks[i], es[i], PortOf(obfuscated[i], 'Q'), n)
    ensures forall n :: n in walks[i].affected <==>
      ReachedThrough(ks[i], es[i], PortOf(obfuscated[i], 'Q'), n) && n in ks[i] && IsAffectedKind(ks[i][n])
  {
    var w := walks[i];
    FreshWalkExact(ks[i], es[i], ks[i + 1], es[i + 1], w.root, DUMMY_PARENT, w.visited, w.affected, w.cutFrom, w.order);
  }

  /** The edges `reset -> inst.R` for the instances of `original`. */
  ghost function ResetEdges(original: seq<Name>): set<Edge> {
    set i | 0 <= i < |original| :: Edge(RESET_NET, PortOf(original[i], 'R'))
  }

  /** Every output port `inst.Q` of `obfuscated` names a node. */
  ghost predicate OutputsExist(kinds: map<Name, Kind>, obfuscated: seq<Name>) {
    forall i :: 0 <= i < |obfuscated| ==> PortOf(obfuscated[i], 'Q') in kinds
  }

  /** The reset net and every reset port `inst.R` of `original` name nodes (the reset net only if some port is to be driven). */
  ghost predicate ResetsExist(kinds: map<Name, Kind>, original: seq<Name>) {
    && (original != [] ==> RESET_NET in kinds)
    && forall i :: 0 <= i < |original| ==> PortOf(original[i], 'R') in kinds
  }

  /** `affected` and `visits` are the unions of what the walks affected and visited. */
  ghost predicate UnionOfWalks(walks: seq<Walk>, affected: set<Name>, visits: set<Name>) {
    && (forall n :: n in affected <==> exists i :: 0 <= i < |walks| && n in walks[i].affected)
    && (forall n :: n in visits <==> exists i :: 0 <= i < |walks| && n in walks[i].visited)
  }

  /**
    From (`k0`, `e0`) to (`k1`, `e1`) only visited cut-point nodes were
    rewritten, and only edges into affected nodes were removed, each from a
    visited node or from the dummy parent.
    */
  ghost predicate Neutralized(k0: map<Name, Kind>, e0: set<Edge>, k1: map<Name, Kind>, e1: set<Edge>,
                              affected: set<Name>, visits: set<Name>) {
    && affected <= visits <= k0.Keys
    && (forall n :: n in affected ==> IsAffectedKind(k0[n]))
    && KindsRewritten(k0, k1, affected)
    && e1 <= e0
    && forall e :: e in e0 - e1 ==> e.dst in affected && (e.src in visits || e.src == DUMMY_PARENT)
  }

  /**
    The driver loop of attack_harpoon.py:81-86: one walk per obfuscated
    instance, each from `inst.Q` with fresh visited and affected sets; the
    unions of those sets are returned. A missing `inst.Q` aborts.
    */
  method NeutralizeAll(ck: Circuit, obfuscated: seq<Name>)
      returns (outcome: Outcome, affected: set<Name>, visits: set<Name>,
               ghost ks: seq<map<Name, Kind>>, ghost es: seq<set<Edge>>, ghost walks: seq<Walk>)
    requires ck.Valid()
    modifies ck
    ensures ck.Valid()
    // the walks that ran, one per instance, each on the graph its predecessors left
    ensures WalksChained(obfuscated, ks, es, walks)
    ensures ks[0] == old(ck.kinds) && es[0] == old(ck.edges)
    ensures ks[|walks|] == ck.kinds && es[|walks|] == ck.edges
    ensures UnionOfWalks(walks, affected, visits)
    // all of them, unless some inst.Q is missing
    ensures outcome == Cleaned <==> OutputsExist(old(ck.kinds), obfuscated)
    ensures outcome == Cleaned ==> |walks| == |obfuscated|
    ensures outcome.MalformedReference? ==>
      |walks| < |obfuscated| && outcome.name == PortOf(obfuscated[|walks|], 'Q') && outcome.name !in old(ck.kinds)
    // in sum
    ensures Neutralized(old(ck.kinds), old(ck.edges), ck.kinds, ck.edges, affected, visits)
  {
    outcome, affected, visits := Cleaned, {}, {};
    ks, es, walks := [ck.kinds], [ck.edges], [];
    var i := 0;
    while i < |obfuscated|
      invariant 0 <= i <= |obfuscated| && |walks| == i
      invariant ck.Valid()
      invariant DriverState(obfuscated, old(ck.kinds), old(ck.edges), ks, es, walks, affected, visits, ck.kinds, ck.edges)
    {
      var root := PortOf(obfuscated[i], 'Q');
      if root !in ck.kinds {
        return MalformedReference(root), affected, visits, ks, es, walks;
      }
      ghost var k0, e0 := ck.kinds, ck.edges;
      ghost var cut, order;
      var a, v;
      a, v, cut, order := FixAffectedNodes(ck, root, DUMMY_PARENT, {}, {});
      ghost var w := Walk(root, v, a, cut, order);
      DriverStep(obfuscated, old(ck.kinds), old(ck.edges), ks, es, walks, affected, visits, k0, e0, w, ck.kinds, ck.edges);
      ks, es, walks := ks + [ck.kinds], es + [ck.edges], walks + [w];
      affected, visits := affected + a, visits + v;
      i := i + 1;
    }
  }

  /**
    The invariant of the driver loop: the walks so far are chained from the
    loaded graph (`k0`, `e0`) to the current one (`k1`, `e1`), the sets are
    their unions, every root so far named a node, and the changes so far are
    those of a neutralisation.
    */
  ghost predicate DriverState(obfuscated: seq<Name>, k0: map<Name, Kind>, e0: set<Edge>,
                              ks: seq<map<Name, Kind>>, es: seq<set<Edge>>, walks: seq<Walk>,
                              affected: set<Name>, visits: set<Name>, k1: map<Name, Kind>, e1: set<Edge>) {
    && WalksChained(obfuscated, ks, es, walks)
    && ks[0] == k0 && es[0] == e0 && ks[|walks|] == k1 && es[|walks|] == e1
    && UnionOfWalks(walks, affected, visits)
    && (forall j :: 0 <= j < |walks| ==> PortOf(obfuscated[j], 'Q') in k0)
    && Neutralized(k0, e0, k1, e1, affected, visits)
  }

  /** One more walk, from the next root, keeps the driver loop's invariant. */
  lemma DriverStep(obfuscated: seq<Name>, k0: map<Name, Kind>, e0: set<Edge>,
                   ks: seq<map<Name, Kind>>, es: seq<set<Edge>>, walks: seq<Walk>,
                   affected: set<Name>, visits: set<Name>, k1: map<Name, Kind>, e1: set<Edge>,
                   w: Walk, k2: map<Name, Kind>, e2: set<Edge>)
    requires DriverState(obfuscated, k0, e0, ks, es, walks, affected, visits, k1, e1)
    requires |walks| < |obfuscated| && w.root == PortOf(obfuscated[|walks|], 'Q') && w.root in k1
    requires Walked(k1, e1, k2, e2, w.root, DUMMY_PARENT, {}, {}, w.visited, w.affected, w.cutFrom, w.order, {})
    ensures DriverState(obfuscated, k0, e0, ks + [k2], es + [e2], walks + [w],
                        affected + w.affected, visits + w.visited, k2, e2)
  {
    Summarize(k0, e0, k1, e1, k2, e2, w.root, affected, visits, w.affected, w.visited, w.cutFrom, w.order);
    ChainExtend(obfuscated, ks, es, walks, w, k2, e2);
    UnionExtend(walks, w, affected, visits);
    var walks' := walks + [w];
    forall j | 0 <= j < |walks'| ensures PortOf(obfuscated[j], 'Q') in k0 {
      if j == |walks| {
        assert k1.Keys == k0.Keys;
      }
    }
  }

  /** The summary invariants of the driver loop survive one more walk. */
  lemma Summarize(kinds: map<Name, Kind>, edges: set<Edge>, k0: map<Name, Kind>, e0: set<Edge>,
                  k1: map<Name, Kind>, e1: set<Edge>, root: Name, affected: set<Name>, visits: set<Name>,
                  a: set<Name>, v: set<Name>, cut: map<Name, Name>, order: seq<Name>)
    requires Neutralized(kinds, edges, k0, e0, affected, visits)
    requires Walked(k0, e0, k1, e1, root, DUMMY_PARENT, {}, {}, v, a, cut, order, {})
    ensures Neutralized(kinds, edges, k1, e1, affected + a, visits + v)
  {
    assert v - {} == v && a - {} == a;
    forall n | n in a ensures IsAffectedKind(kinds[n]) {
      CutPointBeforeRewrite(kinds, k0, affected, n);
    }
    KindsRewrittenCompose(kinds, k0, k1, affected, a);
    forall e | e in e0 - e1 ensures e.dst in a && (e.src in v || e.src == DUMMY_PARENT) {
      CutEdgeDst(cut, e);
    }
  }

  lemma ChainExtend(obfuscated: seq<Name>, ks: seq<map<Name, Kind>>, es: seq<set<Edge>>, walks: seq<Walk>,
                    w: Walk, k1: map<Name, Kind>, e1: set<Edge>)
    requires WalksChained(obfuscated, ks, es, walks) && |walks| < |obfuscated|
    requires w.root == PortOf(obfuscated[|walks|], 'Q')
    requires Walked(ks[|walks|], es[|walks|], k1, e1, w.root, DUMMY_PARENT, {}, {}, w.visited, w.affected, w.cutFrom, w.order, {})
    ensures WalksChained(obfuscated, ks + [k1], es + [e1], walks + [w])
    ensures (ks + [k1])[0] == ks[0] && (es + [e1])[0] == es[0]
    ensures (ks + [k1])[|walks| + 1] == k1 && (es + [e1])[|walks| + 1] == e1
  {
    var ks', es', walks' := ks + [k1], es + [e1], walks + [w];
    forall i | 0 <= i < |walks'|
      ensures && walks'[i].root == PortOf(obfuscated[i], 'Q')
              && Walked(ks'[i], es'[i], ks'[i + 1], es'[i + 1], walks'[i].root, DUMMY_PARENT, {}, {},
                        walks'[i].visited, walks'[i].affected, walks'[i].cutFrom, walks'[i].order, {})
    {
      if i < |walks| {
        assert ks'[i] == ks[i] && ks'[i + 1] == ks[i + 1] && es'[i] == es[i] && es'[i + 1] == es[i + 1] && walks'[i] == walks[i];
      }
    }
  }

  lemma UnionExtend(walks: seq<Walk>, w: Walk, affected: set<Name>, visits: set<Name>)
    requires UnionOfWalks(walks, affected, visits)
    ensures UnionOfWalks(walks + [w], affected + w.affected, visits + w.visited)
  {
    var walks' := walks + [w];
    assert walks'[|walks|] == w;
    forall j | 0 <= j < |walks| ensures walks'[j] == walks[j] { }
  }

  /**
    The reconnection of attack_harpoon.py:90-91: an edge from `reset` into the
    reset port of every original instance. The model assumes that the graph
    library rejects an edge to or from a name that is not a node, which aborts.
    */
  method ReconnectResets(ck: Circuit, original: seq<Name>) returns (outcome: Outcome)
    requires ck.Valid()
    modifies ck
    ensures ck.Valid() && ck.kinds == old(ck.kinds)
    ensures outcome == Cleaned <==> ResetsExist(ck.kinds, original)
    ensures outcome.MalformedReference? ==> outcome.name !in ck.kinds
    ensures old(ck.edges) <= ck.edges <= old(ck.edges) + ResetEdges(original)
    ensures outcome == Cleaned ==> ck.edges == old(ck.edges) + ResetEdges(original)
  {
    var i := 0;
    while i < |original|
      invariant 0 <= i <= |original|
      invariant ck.Valid() && ck.kinds == old(ck.kinds)
      invariant ResetsExist(ck.kinds, original[..i])
      invariant ck.edges == old(ck.edges) + ResetEdges(original[..i])
    {
      var port := PortOf(original[i], 'R');
      if RESET_NET !in ck.kinds {
        return MalformedReference(RESET_NET);
      }
      if port !in ck.kinds {
        return MalformedReference(port);
      }
      ck.Connect(RESET_NET, port);
      assert original[..i + 1] == original[..i] + [original[i]];
      assert ResetEdges(original[..i + 1]) == ResetEdges(original[..i]) + {Edge(RESET_NET, port)} by {
        var s := original[..i + 1];
        forall e | e in ResetEdges(s) ensures e in ResetEdges(original[..i]) + {Edge(RESET_NET, port)} {
          var j :| 0 <= j < |s| && e == Edge(RESET_NET, PortOf(s[j], 'R'));
          if j < i { assert s[j] == original[..i][j]; }
        }
        forall e | e in ResetEdges(original[..i]) ensures e in ResetEdges(s) {
          var j :| 0 <= j < i && e == Edge(RESET_NET, PortOf(original[..i][j], 'R'));
          assert s[j] == original[..i][j];
        }
        assert s[i] == original[i];
      }
      i := i + 1;
    }
    assert original[..i] == original;
    return Cleaned;
  }

  /**
    `main` without its file I/O (attack_harpoon.py:54-91): classify every reset,
    neutralise downstream of every obfuscated flip-flop, then drive every
    original flip-flop's reset from `reset`.
    */
  method Attack(ck: Circuit)
      returns (outcome: Outcome, original: seq<Name>, obfuscated: seq<Name>, affected: set<Name>,
               ghost resets: seq<Name>, ghost ks: seq<map<Name, Kind>>, ghost es: seq<set<Edge>>, ghost walks: seq<Walk>)
    requires ck.Valid()
    modifies ck
    ensures ck.Valid()
    // classification of the graph as loaded
    ensures Enumerates(resets, ResetPorts(old(ck.kinds)))
    ensures original == Instances(old(ck.kinds), old(ck.edges), resets, true)
    ensures obfuscated == Instances(old(ck.kinds), old(ck.edges), resets, false)
    // the pipeline aborts exactly on a port that names no node
    ensures outcome == Cleaned <==> OutputsExist(old(ck.kinds), obfuscated) && ResetsExist(old(ck.kinds), original)
    ensures outcome.MalformedReference? ==> outcome.name !in old(ck.kinds)
    // the cleaned graph: one fresh walk per obfuscated instance, then the reset edges
    ensures outcome == Cleaned ==>
      && WalksChained(obfuscated, ks, es, walks) && |walks| == |obfuscated|
      && ks[0] == old(ck.kinds) && es[0] == old(ck.edges)
      && ck.kinds == ks[|walks|] && ck.edges == es[|walks|] + ResetEdges(original)
      && (forall n :: n in affected <==> exists i :: 0 <= i < |walks| && n in walks[i].affected)
    ensures outcome == Cleaned ==>
      && affected <= old(ck.kinds).Keys
      && (forall n :: n in affected ==> IsAffectedKind(old(ck.kinds)[n]))
      && KindsRewritten(old(ck.kinds), ck.kinds, affected)
      && (forall e :: e in old(ck.edges) - ck.edges ==> e.dst in affected)
      && ck.edges - old(ck.edges) <= ResetEdges(original)
      && (forall i :: 0 <= i < |original| ==> Edge(RESET_NET, PortOf(original[i], 'R')) in ck.edges)
  {
    original, obfuscated, resets := ClassifyResets(ck);
    var visits;
    outcome, affected, visits, ks, es, walks := NeutralizeAll(ck, obfuscated);
    if outcome != Cleaned {
      return;
    }
    SameNodesSameResets(old(ck.kinds), ck.kinds, original);
    outcome := ReconnectResets(ck, original);
    if outcome == Cleaned {
      ResetsDriven(ck.edges, original);
    }
  }

  /** Whether the reset ports exist depends only on which nodes there are. */
  lemma SameNodesSameResets(k0: map<Name, Kind>, k1: map<Name, Kind>, original: seq<Name>)
    requires k1.Keys == k0.Keys
    ensures ResetsExist(k1, original) <==> ResetsExist(k0, original)
  {
    assert forall n :: n in k1 <==> n in k0.Keys;
  }

  lemma ResetsDriven(edges: set<Edge>, original: seq<Name>)
    requires ResetEdges(original) <= edges
    ensures forall i :: 0 <= i < |original| ==> Edge(RESET_NET, PortOf(original[i], 'R')) in edges
  {
    forall i | 0 <= i < |original| ensures Edge(RESET_NET, PortOf(original[i], 'R')) in edges {
      assert Edge(RESET_NET, PortOf(original[i], 'R')) in ResetEdges(original);
    }
  }
}
