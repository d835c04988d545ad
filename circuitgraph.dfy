/**
  The gate-level circuit graph the attack works on: named nodes with a kind,
  directed signal edges driver -> load, and the fanin cone of a node.
  */
module CircuitGraph {

  type Name = string

  /** The closed set of node kinds of the netlist. */
  datatype Kind =
    | And | Or | Xor       // two-input gates, positive polarity
    | Nand | Nor | Xnor    // two-input gates, negative polarity
    | Buf | Not
    | Input | Output
    | BbInput | BbOutput   // ports of a black-box (flip-flop) instance

  predicate IsTwoInputPositive(k: Kind) {
    k == And || k == Or || k == Xor
  }

  predicate IsTwoInputNegative(k: Kind) {
    k == Nand || k == Nor || k == Xnor
  }

  /** The kinds at which the neutraliser stops and cuts (attack_harpoon.py:31). */
  predicate IsAffectedKind(k: Kind) {
    IsTwoInputPositive(k) || IsTwoInputNegative(k) || k == BbInput
  }

  /** A signal connection from the driver `src` to the load `dst`. */
  datatype Edge = Edge(src: Name, dst: Name)

  /** Edges reference only existing nodes. */
  ghost predicate EdgesWithin(kinds: map<Name, Kind>, edges: set<Edge>) {
    forall e :: e in edges ==> e.src in kinds && e.dst in kinds
  }

  /** The drivers of `n`. */
  function Fanin(edges: set<Edge>, n: Name): (r: set<Name>)
    ensures forall u :: u in r <==> Edge(u, n) in edges
  {
    var r := set e | e in edges && e.dst == n :: e.src;
    assert forall u :: Edge(u, n) in edges ==> u in r by {
      forall u | Edge(u, n) in edges ensures u in r { assert Edge(u, n).src == u; }
    }
    r
  }

  /** The drivers of the nodes of `s`. */
  function FaninOfSet(edges: set<Edge>, s: set<Name>): (r: set<Name>)
    ensures forall u, v :: v in s && Edge(u, v) in edges ==> u in r
    ensures forall u :: u in r ==> exists v :: v in s && Edge(u, v) in edges
  {
    var r := set e | e in edges && e.dst in s :: e.src;
    assert forall u, v :: v in s && Edge(u, v) in edges ==> u in r by {
      forall u, v | v in s && Edge(u, v) in edges ensures u in r { assert Edge(u, v).src == u; }
    }
    r
  }

  /** Every node that some edge touches. */
  function Endpoints(edges: set<Edge>): set<Name> {
    (set e | e in edges :: e.src) + (set e | e in edges :: e.dst)
  }

  lemma FaninWithinEndpoints(edges: set<Edge>, s: set<Name>)
    ensures FaninOfSet(edges, s) <= Endpoints(edges)
  {
    forall u | u in FaninOfSet(edges, s) ensures u in Endpoints(edges) {
      var v :| v in s && Edge(u, v) in edges;
      assert Edge(u, v).src == u;
    }
  }

  /** Removing more of a finite universe leaves strictly fewer of its elements. */
  lemma DiffShrinks<T>(u: set<T>, a: set<T>, b: set<T>, x: T)
    requires a <= b && x in b && x !in a && x in u
    ensures |u - b| < |u - a|
  {
    var rest := (u - a) - (u - b);
    assert x in rest;
    assert u - a == (u - b) + rest;
    assert (u - b) * rest == {};
  }

  /**
    The least superset of `reached` that is closed under taking drivers:
    iterate "add the drivers of what has been reached" until nothing new
    appears. It terminates because every round adds an edge endpoint.
    */
  function Closure(edges: set<Edge>, reached: set<Name>): (r: set<Name>)
    requires reached <= Endpoints(edges)
    decreases |Endpoints(edges) - reached|
    ensures reached <= r <= Endpoints(edges)
    ensures FaninOfSet(edges, r) <= r
  {
    FaninWithinEndpoints(edges, reached);
    var next := reached + FaninOfSet(edges, reached);
    if next == reached then reached
    else
      var x :| x in next && x !in reached;
      DiffShrinks(Endpoints(edges), reached, next, x);
      Closure(edges, next)
  }

  /** Every set closed under drivers that holds `reached` holds its closure. */
  lemma {:induction false} ClosureLeast(edges: set<Edge>, reached: set<Name>, s: set<Name>)
    requires reached <= Endpoints(edges)
    requires reached <= s && FaninOfSet(edges, s) <= s
    decreases |Endpoints(edges) - reached|
    ensures Closure(edges, reached) <= s
  {
    FaninWithinEndpoints(edges, reached);
    var next := reached + FaninOfSet(edges, reached);
    if next != reached {
      var x :| x in next && x !in reached;
      DiffShrinks(Endpoints(edges), reached, next, x);
      forall u | u in FaninOfSet(edges, reached) ensures u in s {
        var v :| v in reached && Edge(u, v) in edges;
      }
      ClosureLeast(edges, next, s);
    }
  }

  /** The transitive fanin of `v`: every node with a path of edges into `v`. */
  function TransitiveFanin(edges: set<Edge>, v: Name): set<Name> {
    FaninWithinEndpoints(edges, {v});
    assert Fanin(edges, v) <= FaninOfSet(edges, {v});
    Closure(edges, Fanin(edges, v))
  }

  /** The driverless nodes of the transitive fanin of `v`: its cone's roots. */
  function Startpoints(edges: set<Edge>, v: Name): set<Name> {
    set n | n in TransitiveFanin(edges, v) && Fanin(edges, n) == {}
  }

  /** `p` follows edges from `p[0]` to its last node, over at least one edge. */
  ghost predicate IsPath(edges: set<Edge>, p: seq<Name>) {
    |p| >= 2 && forall i :: 0 <= i < |p| - 1 ==> Edge(p[i], p[i + 1]) in edges
  }

  ghost predicate Reaches(edges: set<Edge>, u: Name, v: Name) {
    exists p :: IsPath(edges, p) && p[0] == u && p[|p| - 1] == v
  }

  lemma EdgeReaches(edges: set<Edge>, u: Name, v: Name)
    requires Edge(u, v) in edges
    ensures Reaches(edges, u, v)
  {
    var p := [u, v];
    assert IsPath(edges, p);
  }

  lemma PrependReaches(edges: set<Edge>, u: Name, w: Name, v: Name)
    requires Edge(u, w) in edges && Reaches(edges, w, v)
    ensures Reaches(edges, u, v)
  {
    var p :| IsPath(edges, p) && p[0] == w && p[|p| - 1] == v;
    var q := [u] + p;
    forall i | 0 <= i < |q| - 1 ensures Edge(q[i], q[i + 1]) in edges {
      if i > 0 { assert q[i] == p[i - 1] && q[i + 1] == p[i]; }
    }
    assert IsPath(edges, q);
  }

  /** If everything reached so far reaches `v`, so does everything in the closure. */
  lemma {:induction false} ClosureReaches(edges: set<Edge>, reached: set<Name>, v: Name)
    requires reached <= Endpoints(edges)
    requires forall u :: u in reached ==> Reaches(edges, u, v)
    decreases |Endpoints(edges) - reached|
    ensures forall u :: u in Closure(edges, reached) ==> Reaches(edges, u, v)
  {
    FaninWithinEndpoints(edges, reached);
    var next := reached + FaninOfSet(edges, reached);
    if next != reached {
      var x :| x in next && x !in reached;
      DiffShrinks(Endpoints(edges), reached, next, x);
      forall u | u in FaninOfSet(edges, reached) ensures Reaches(edges, u, v) {
        var w :| w in reached && Edge(u, w) in edges;
        PrependReaches(edges, u, w, v);
      }
      ClosureReaches(edges, next, v);
    }
  }

  /** Every node of a path from position `i` on lies in a driver-closed set holding the path's second-to-last node. */
  lemma {:induction false} PathInClosed(edges: set<Edge>, p: seq<Name>, s: set<Name>, i: nat)
    requires IsPath(edges, p) && i <= |p| - 2
    requires p[|p| - 2] in s && FaninOfSet(edges, s) <= s
    decreases |p| - i
    ensures p[i] in s
  {
    if i < |p| - 2 {
      PathInClosed(edges, p, s, i + 1);
      assert Edge(p[i], p[i + 1]) in edges;
    }
  }

  /** The transitive fanin of `v` is exactly the set of nodes with a path into `v`. */
  lemma TransitiveFaninIsReach(edges: set<Edge>, u: Name, v: Name)
    ensures u in TransitiveFanin(edges, v) <==> Reaches(edges, u, v)
  {
    var start := Fanin(edges, v);
    FaninWithinEndpoints(edges, {v});
    assert start <= FaninOfSet(edges, {v});
    forall w | w in start ensures Reaches(edges, w, v) { EdgeReaches(edges, w, v); }
    ClosureReaches(edges, start, v);
    if Reaches(edges, u, v) {
      var p :| IsPath(edges, p) && p[0] == u && p[|p| - 1] == v;
      assert Edge(p[|p| - 2], p[|p| - 1]) in edges;
      PathInClosed(edges, p, Closure(edges, start), 0);
    }
  }

  /** The startpoints of `v` are exactly the driverless nodes with a path into `v`. */
  lemma StartpointsAreDriverlessAncestors(edges: set<Edge>, u: Name, v: Name)
    ensures u in Startpoints(edges, v) <==> Fanin(edges, u) == {} && Reaches(edges, u, v)
  {
    TransitiveFaninIsReach(edges, u, v);
  }

  /**
    The mutable circuit: every node's kind and the set of edges. The methods
    are the graph operations the attack calls (disconnect, set_type, connect).
    */
  class Circuit {
    var kinds: map<Name, Kind>
    var edges: set<Edge>

    /** Edges reference only existing nodes. */
    ghost predicate Valid()
      reads this
    {
      EdgesWithin(kinds, edges)
    }

    /** The loads of `n`. */
    function Fanout(n: Name): (r: set<Name>)
      reads this
      ensures forall c :: c in r <==> Edge(n, c) in edges
    {
      var r := set e | e in edges && e.src == n :: e.dst;
      assert forall c :: Edge(n, c) in edges ==> c in r by {
        forall c | Edge(n, c) in edges ensures c in r { assert Edge(n, c).dst == c; }
      }
      r
    }

    /** Removes the edge u -> v; nothing happens when there is none. */
    method Disconnect(u: Name, v: Name)
      modifies this
      ensures edges == old(edges) - {Edge(u, v)}
      ensures kinds == old(kinds)
      ensures old(Valid()) ==> Valid()
    {
      edges := edges - {Edge(u, v)};
    }

    /** Relabels the existing node `n`. */
    method SetType(n: Name, k: Kind)
      requires n in kinds
      modifies this
      ensures kinds == old(kinds)[n := k]
      ensures edges == old(edges)
      ensures old(Valid()) ==> Valid()
    {
      kinds := kinds[n := k];
    }

    /** Adds the edge u -> v between two existing nodes. */
    method Connect(u: Name, v: Name)
      requires u in kinds && v in kinds
      modifies this
      ensures edges == old(edges) + {Edge(u, v)}
      ensures kinds == old(kinds)
      ensures old(Valid()) ==> Valid()
    {
      edges := edges + {Edge(u, v)};
    }
  }
}
