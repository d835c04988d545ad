/**
  Black-box port names: every flip-flop instance `inst` contributes the port
  nodes `inst.R`, `inst.S`, `inst.C`, `inst.D` and `inst.Q`. The attack finds
  reset ports with a substring test and recovers the instance name by
  deleting every ".R" from the port name.
  */
module PortNames {

  /** `".R" in s`: the two characters '.' 'R' occur next to each other somewhere in `s`. */
  predicate HasResetTag(s: string) {
    exists i :: 0 <= i < |s| - 1 && s[i] == '.' && s[i + 1] == 'R'
  }

  /** `s.replace(".R", "")`: each ".R", found scanning left to right, is deleted. */
  function StripResetTag(s: string): string {
    if |s| >= 2 && s[0] == '.' && s[1] == 'R' then StripResetTag(s[2..])
    else if s == [] then []
    else [s[0]] + StripResetTag(s[1..])
  }

  /** The node name of port `port` of instance `inst`. */
  function PortOf(inst: string, port: char): string {
    inst + ['.', port]
  }

  lemma TagInTail(s: string)
    requires |s| >= 1 && HasResetTag(s[1..])
    ensures HasResetTag(s)
  {
    var i :| 0 <= i < |s[1..]| - 1 && s[1..][i] == '.' && s[1..][i + 1] == 'R';
    assert s[i + 1] == '.' && s[i + 2] == 'R';
  }

  /** Deleting ".R" shortens a name exactly when the name holds ".R"; otherwise it is the identity. */
  lemma {:induction false} StripShortensIffTagged(s: string)
    ensures |StripResetTag(s)| <= |s|
    ensures |StripResetTag(s)| < |s| <==> HasResetTag(s)
    ensures !HasResetTag(s) ==> StripResetTag(s) == s
  {
    if |s| >= 2 && s[0] == '.' && s[1] == 'R' {
      StripShortensIffTagged(s[2..]);
    } else if s != [] {
      StripShortensIffTagged(s[1..]);
      if HasResetTag(s) {
        var i :| 0 <= i < |s| - 1 && s[i] == '.' && s[i + 1] == 'R';
        assert i > 0;
        assert s[1..][i - 1] == '.' && s[1..][i] == 'R';
      }
      if HasResetTag(s[1..]) { TagInTail(s); }
    }
  }

  /** For an instance whose name holds no ".R", the reset port maps back to the instance. */
  lemma {:induction false} ResetPortRoundTrip(inst: string)
    requires !HasResetTag(inst)
    ensures HasResetTag(PortOf(inst, 'R'))
    ensures StripResetTag(PortOf(inst, 'R')) == inst
  {
    var s := PortOf(inst, 'R');
    assert s[|inst|] == '.' && s[|inst| + 1] == 'R';
    if inst == [] {
      assert s == ".R";
      assert StripResetTag(s) == StripResetTag("");
    } else {
      assert s[1..] == PortOf(inst[1..], 'R');
      if HasResetTag(inst[1..]) { TagInTail(inst); }
      ResetPortRoundTrip(inst[1..]);
      if |inst| >= 2 {
        assert !(inst[0] == '.' && inst[1] == 'R');
      }
      assert !(s[0] == '.' && s[1] == 'R');
    }
  }

  /** The substring test is loose: when the instance name holds ".R", every one of its ports passes it. */
  lemma LooseResetMatch(inst: string, port: char)
    requires HasResetTag(inst)
    ensures HasResetTag(PortOf(inst, port))
  {
    var i :| 0 <= i < |inst| - 1 && inst[i] == '.' && inst[i + 1] == 'R';
    assert PortOf(inst, port)[i] == '.' && PortOf(inst, port)[i + 1] == 'R';
  }
}
