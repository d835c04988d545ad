/**
  Reset-origin classification (attack_harpoon.py:61-75): a flip-flop whose
  reset port is driven, through its fanin cone, by the output of some
  flip-flop is original; one whose reset cone starts only at other nodes
  was inserted by the obfuscation.
  */
module ResetClassifier {
  import opened CircuitGraph
  import opened PortNames

  /** The black-box input ports whose name holds ".R" (attack_harpoon.py:61-62). */
  function ResetPorts(kinds: map<Name, Kind>): set<Name> {
    set n | n in kinds && kinds[n] == BbInput && HasResetTag(n)
  }

  /** The reset `r` has a flip-flop output among its startpoints (attack_harpoon.py:69-71). */
  predicate IsGenuine(kinds: map<Name, Kind>, edges: set<Edge>, r: Name) {
    (set s | s in Startpoints(edges, r) && s in kinds && kinds[s] == BbOutput) != {}
  }

  /** The instance names of the resets of `resets` whose verdict is `genuine`, in order. */
  function Instances(kinds: map<Name, Kind>, edges: set<Edge>, resets: seq<Name>, genuine: bool): seq<Name> {
    if resets == [] then []
    else
      var last := resets[|resets| - 1];
      Instances(kinds, edges, resets[..|resets| - 1], genuine)
        + (if IsGenuine(kinds, edges, last) == genuine then [StripResetTag(last)] else [])
  }

  /** One more reset appends its instance name to the list of its verdict and leaves the other list alone. */
  lemma InstancesSnoc(kinds: map<Name, Kind>, edges: set<Edge>, resets: seq<Name>, r: Name)
    ensures Instances(kinds, edges, resets + [r], IsGenuine(kinds, edges, r))
         == Instances(kinds, edges, resets, IsGenuine(kinds, edges, r)) + [StripResetTag(r)]
    ensures Instances(kinds, edges, resets + [r], !IsGenuine(kinds, edges, r))
         == Instances(kinds, edges, resets, !IsGenuine(kinds, edges, r))
  {
    assert (resets + [r])[..|resets + [r]| - 1] == resets;
  }

  /** The instance names of all resets, in order. */
  function InstanceNames(resets: seq<Name>): seq<Name> {
    if resets == [] then []
    else InstanceNames(resets[..|resets| - 1]) + [StripResetTag(resets[|resets| - 1])]
  }

  /** `resets` lists every element of `s` exactly once. */
  ghost predicate Enumerates(resets: seq<Name>, s: set<Name>) {
    && (forall i, j :: 0 <= i < j < |resets| ==> resets[i] != resets[j])
    && (forall r :: r in s <==> r in resets)
  }

  /**
    The classification loop of attack_harpoon.py:67-75. The ports are visited
    in some order (the source iterates a set); `resets` is that order.
    */
  method ClassifyResets(ck: Circuit) returns (original: seq<Name>, obfuscated: seq<Name>, ghost resets: seq<Name>)
    ensures Enumerates(resets, ResetPorts(ck.kinds))
    ensures original == Instances(ck.kinds, ck.edges, resets, true)
    ensures obfuscated == Instances(ck.kinds, ck.edges, resets, false)
    // the same, said of the two lists alone
    ensures forall inst :: inst in original <==>
      exists r :: r in ResetPorts(ck.kinds) && IsGenuine(ck.kinds, ck.edges, r) && StripResetTag(r) == inst
    ensures forall inst :: inst in obfuscated <==>
      exists r :: r in ResetPorts(ck.kinds) && !IsGenuine(ck.kinds, ck.edges, r) && StripResetTag(r) == inst
    ensures |original| + |obfuscated| == |ResetPorts(ck.kinds)|
  {
    var todo := ResetPorts(ck.kinds);
    original, obfuscated, resets := [], [], [];
    while todo != {}
      invariant forall r :: r in todo ==> r !in resets
      invariant forall r :: r in ResetPorts(ck.kinds) <==> r in todo || r in resets
      invariant forall i, j :: 0 <= i < j < |resets| ==> resets[i] != resets[j]
      invariant original == Instances(ck.kinds, ck.edges, resets, true)
      invariant obfuscated == Instances(ck.kinds, ck.edges, resets, false)
      decreases todo
    {
      var r :| r in todo;
      todo := todo - {r};
      if IsGenuine(ck.kinds, ck.edges, r) {
        original := original + [StripResetTag(r)];
      } else {
        obfuscated := obfuscated + [StripResetTag(r)];
      }
      InstancesSnoc(ck.kinds, ck.edges, resets, r);
      resets := resets + [r];
    }
    ListsOfEnumeration(ck.kinds, ck.edges, resets);
  }

  /** What the two lists of an enumeration of the resets hold, said without the enumeration. */
  lemma ListsOfEnumeration(kinds: map<Name, Kind>, edges: set<Edge>, resets: seq<Name>)
    requires Enumerates(resets, ResetPorts(kinds))
    ensures forall inst :: inst in Instances(kinds, edges, resets, true) <==>
      exists r :: r in ResetPorts(kinds) && IsGenuine(kinds, edges, r) && StripResetTag(r) == inst
    ensures forall inst :: inst in Instances(kinds, edges, resets, false) <==>
      exists r :: r in ResetPorts(kinds) && !IsGenuine(kinds, edges, r) && StripResetTag(r) == inst
    ensures |Instances(kinds, edges, resets, true)| + |Instances(kinds, edges, resets, false)| == |ResetPorts(kinds)|
  {
    EnumerationSize(resets, ResetPorts(kinds));
    ClassificationPartitions(kinds, edges, resets);
    forall inst ensures inst in Instances(kinds, edges, resets, true) <==>
      exists r :: r in ResetPorts(kinds) && IsGenuine(kinds, edges, r) && StripResetTag(r) == inst
    {
      ListedIff(kinds, edges, resets, true, inst);
    }
    forall inst ensures inst in Instances(kinds, edges, resets, false) <==>
      exists r :: r in ResetPorts(kinds) && !IsGenuine(kinds, edges, r) && StripResetTag(r) == inst
    {
      ListedIff(kinds, edges, resets, false, inst);
    }
  }

  /** A sequence that lists every element of a set exactly once is as long as the set. */
  lemma {:induction false} EnumerationSize(resets: seq<Name>, s: set<Name>)
    requires Enumerates(resets, s)
    ensures |resets| == |s|
  {
    if resets != [] {
      var init, last := resets[..|resets| - 1], resets[|resets| - 1];
      assert resets == init + [last];
      forall r ensures r in s - {last} <==> r in init {
        if r in init {
          var j :| 0 <= j < |init| && init[j] == r;
          assert resets[j] == r && j < |resets| - 1;
        }
      }
      EnumerationSize(init, s - {last});
    } else {
      assert forall r :: r !in s;
      assert s == {};
    }
  }

  /** The two lists split the resets: together they hold each reset's instance name once. */
  lemma {:induction false} ClassificationPartitions(kinds: map<Name, Kind>, edges: set<Edge>, resets: seq<Name>)
    ensures multiset(Instances(kinds, edges, resets, true)) + multiset(Instances(kinds, edges, resets, false))
         == multiset(InstanceNames(resets))
    ensures |Instances(kinds, edges, resets, true)| + |Instances(kinds, edges, resets, false)| == |resets|
  {
    if resets != [] {
      var init, last := resets[..|resets| - 1], resets[|resets| - 1];
      ClassificationPartitions(kinds, edges, init);
      var g := IsGenuine(kinds, edges, last);
      var name := StripResetTag(last);
      assert InstanceNames(resets) == InstanceNames(init) + [name];
      assert Instances(kinds, edges, resets, g) == Instances(kinds, edges, init, g) + [name];
      assert Instances(kinds, edges, resets, !g) == Instances(kinds, edges, init, !g);
      assert multiset(Instances(kinds, edges, resets, g)) == multiset(Instances(kinds, edges, init, g)) + multiset{name};
      assert multiset(InstanceNames(resets)) == multiset(InstanceNames(init)) + multiset{name};
    }
  }

  /** A name is listed under a verdict exactly when some reset with that verdict strips to it. */
  lemma {:induction false} ListedIff(kinds: map<Name, Kind>, edges: set<Edge>, resets: seq<Name>, genuine: bool, inst: Name)
    ensures inst in Instances(kinds, edges, resets, genuine)
        <==> exists r :: r in resets && IsGenuine(kinds, edges, r) == genuine && StripResetTag(r) == inst
  {
    if resets != [] {
      var init := resets[..|resets| - 1];
      var last := resets[|resets| - 1];
      ListedIff(kinds, edges, init, genuine, inst);
      assert resets == init + [last];
      if exists r :: r in resets && IsGenuine(kinds, edges, r) == genuine && StripResetTag(r) == inst {
        var r :| r in resets && IsGenuine(kinds, edges, r) == genuine && StripResetTag(r) == inst;
        if r != last { assert r in init; }
      }
    }
  }

  /**
    When no two resets strip to the same instance name, each reset's instance
    is original exactly when the reset is genuine, and obfuscated exactly when
    it is not: it lands in precisely one of the two lists.
    */
  lemma ClassifiedOnce(kinds: map<Name, Kind>, edges: set<Edge>, resets: seq<Name>, r: Name)
    requires r in resets
    requires forall x, y :: x in resets && y in resets && StripResetTag(x) == StripResetTag(y) ==> x == y
    ensures StripResetTag(r) in Instances(kinds, edges, resets, true) <==> IsGenuine(kinds, edges, r)
    ensures StripResetTag(r) in Instances(kinds, edges, resets, false) <==> !IsGenuine(kinds, edges, r)
  {
    ListedIff(kinds, edges, resets, true, StripResetTag(r));
    ListedIff(kinds, edges, resets, false, StripResetTag(r));
  }

  /**
    A reset is genuine exactly when some driverless flip-flop output has a
    path of edges into it: the reset is fed back from the design's own state.
    */
  lemma GenuineIffFlipFlopAncestor(kinds: map<Name, Kind>, edges: set<Edge>, r: Name)
    ensures IsGenuine(kinds, edges, r)
        <==> exists s :: s in kinds && kinds[s] == BbOutput && Fanin(edges, s) == {} && Reaches(edges, s, r)
  {
    var fb := set s | s in Startpoints(edges, r) && s in kinds && kinds[s] == BbOutput;
    forall s ensures s in fb <==> s in kinds && kinds[s] == BbOutput && Fanin(edges, s) == {} && Reaches(edges, s, r) {
      StartpointsAreDriverlessAncestors(edges, s, r);
    }
    if !IsGenuine(kinds, edges, r) {
      assert fb == {};
    } else {
      var s :| s in fb;
    }
  }
}
