/**
  The rewrite applied to a gate where the neutraliser cuts one of its inputs:
  the gate then has a single operand left, and becomes the single-input gate
  that passes that operand through with the polarity of the original gate.
  */
module GateRewrite {
  import opened CircuitGraph

  /** The two-input gate functions. */
  function EvalTwo(k: Kind, a: bool, b: bool): bool
    requires IsTwoInputPositive(k) || IsTwoInputNegative(k)
  {
    match k
    case And => a && b
    case Or => a || b
    case Xor => a != b
    case Nand => !(a && b)
    case Nor => !(a || b)
    case Xnor => a == b
  }

  predicate IsSingleInput(k: Kind) {
    k == Buf || k == Not
  }

  function EvalOne(k: Kind, a: bool): bool
    requires IsSingleInput(k)
  {
    if k == Buf then a else !a
  }

  /** The input value that lets the other input of gate `k` decide its output. */
  function NonControlling(k: Kind): bool
    requires IsTwoInputPositive(k) || IsTwoInputNegative(k)
  {
    k == And || k == Nand
  }

  /**
    The kind an affected node gets, as attack_harpoon.py:37-40 is written:
    the second test repeats the positive family, so a negative gate keeps its kind.
    */
  function AffectedKindAsWritten(k: Kind): Kind {
    if IsTwoInputPositive(k) then Buf
    else if IsTwoInputPositive(k) then Not
    else k
  }

  /** The intended rewrite table: positive gates become buf, negative gates not, black-box inputs stay. */
  function AffectedKind(k: Kind): Kind {
    if IsTwoInputPositive(k) then Buf
    else if IsTwoInputNegative(k) then Not
    else k
  }

  /** As written, an affected nand/nor/xnor stays a two-input gate although one of its inputs was cut. */
  lemma NegativeGateKeptAsWritten(k: Kind)
    requires IsTwoInputNegative(k)
    ensures AffectedKindAsWritten(k) == k
    ensures !IsSingleInput(AffectedKindAsWritten(k))
  {
  }

  /** Both tables agree everywhere except on the negative gates. */
  lemma AsWrittenDiffersOnlyOnNegative(k: Kind)
    ensures AffectedKindAsWritten(k) != AffectedKind(k) <==> IsTwoInputNegative(k)
  {
  }

  /**
    With the cut input held at its non-controlling value, the rewritten gate
    computes what the original two-input gate computed from the remaining operand.
    */
  lemma RewriteKeepsFunction(k: Kind, x: bool)
    requires IsTwoInputPositive(k) || IsTwoInputNegative(k)
    ensures IsSingleInput(AffectedKind(k))
    ensures EvalOne(AffectedKind(k), x) == EvalTwo(k, x, NonControlling(k))
  {
  }

  /**
    A rewritten node is a cut point again only when it was a black-box input,
    which the rewrite leaves alone; so rewriting twice is rewriting once.
    */
  lemma RewriteSettles(k: Kind)
    ensures IsAffectedKind(AffectedKind(k)) ==> k == BbInput && AffectedKind(k) == k
    ensures AffectedKind(AffectedKind(k)) == AffectedKind(k)
  {
  }
}
