# HARPOON reset-obfuscation attack, modelled in Dafny

HARPOON-style obfuscation inserts flip-flops whose reset comes from logic
that the design's own state does not drive. The attack works on the
gate-level netlist graph of a locked design and reverses this in three steps:

1. **Reset-origin classification.** The attack looks at every black-box input
   port whose name holds `.R`, i.e. the reset pin `inst.R` of a DFFSR
   instance. If some flip-flop output (`bb_output`) is among the startpoints of
   that pin's fanin cone, the instance is *original*. Otherwise it is
   *obfuscated*.
2. **Downstream neutralisation.** A depth-first walk starts from the output
   `inst.Q` of every obfuscated instance and follows fanout edges. Inputs,
   outputs, flip-flop outputs (`bb_output`), `buf` and `not` nodes let the
   walk pass through. At the first
   two-input gate or black-box input it reaches, the walk cuts the edge it
   arrived by, rewrites the gate to a single-input one and stops descending.
   No node is visited twice within one walk. So a cut point that the same walk
   reaches again along a second path keeps that second edge: each walk cuts
   only the edge of its first arrival. Each walk starts with empty sets, on
   the graph the earlier walks left.
3. **Reconnection.** The reset port of every original instance is driven from
   the net `reset`.

The project has five modules:

- `CircuitGraph` holds the node kinds, the edges and the mutable `Circuit`
  class with `Disconnect`, `SetType` and `Connect`. It also defines the fanin
  cone as the least driver-closed set, with `Startpoints` proved equal to
  "driverless ancestors".
- `PortNames` models the `.R` substring test and `replace(".R", "")`.
- `GateRewrite` holds the rewrite table, both as written and corrected.
- `ResetClassifier` is the classification loop.
- `Neutralizer` holds the walk, the driver loop, the reconnection and the
  whole pipeline `Attack`.

Python iterates sets in an order the model does not fix. The model picks
elements with `:|`, so its proofs hold for every order. The classifier
returns the order it chose as a ghost sequence, so that both lists can be
stated exactly.

Two behaviours deserve a note:

- **Aborts.** The graph library is not part of this model. The model assumes
  that its `fanout` and `connect` raise on a name that is no node, and returns
  `MalformedReference(name)` at each point where the code would then raise. Mutations made before that point stay in place: a missing
  `inst.R` is found only after all walks have run.
- **Negative gates.** As written, the code does not rewrite negative gates
  (see Findings). The model's walk applies the corrected table.

## Model

| member | source | states |
|---|---|---|
| CircuitGraph.Circuit.Fanout | attack_harpoon.py:46 | the loads of a node are exactly the destinations of its outgoing edges |
| CircuitGraph.Circuit.Disconnect | attack_harpoon.py:36 | removes exactly the edge parent -> node (nothing if absent), keeps kinds and edge validity |
| CircuitGraph.Circuit.SetType | attack_harpoon.py:38 | relabels one existing node; edges untouched |
| CircuitGraph.Circuit.Connect | attack_harpoon.py:91 | adds exactly the edge u -> v between existing nodes; kinds untouched |
| CircuitGraph.Fanin | attack_harpoon.py:69 | the drivers of a node are exactly the sources of its incoming edges |
| CircuitGraph.Closure | attack_harpoon.py:69 | the fixpoint of adding drivers contains its seed, stays within the graph and is closed under drivers |
| CircuitGraph.ClosureLeast | attack_harpoon.py:69 | the closure is contained in every driver-closed superset of the seed (it is the least one) |
| CircuitGraph.TransitiveFaninIsReach | attack_harpoon.py:69 | a node is in the transitive fanin of v exactly when a path of edges leads from it to v |
| CircuitGraph.StartpointsAreDriverlessAncestors | attack_harpoon.py:69 | the startpoints of v are exactly the nodes without drivers that have a path into v |
| PortNames.StripShortensIffTagged | attack_harpoon.py:62-72 | deleting ".R" never lengthens a name, shortens it exactly when the name holds ".R", and is the identity otherwise |
| PortNames.ResetPortRoundTrip | attack_harpoon.py:72 | for an instance name without ".R", its port inst.R passes the reset test and maps back to inst, so reconnection drives the port it classified |
| PortNames.LooseResetMatch | attack_harpoon.py:62 | an instance whose name holds ".R" has all its ports pass the reset test |
| GateRewrite.NegativeGateKeptAsWritten | attack_harpoon.py:37-40 | as written, an affected nand/nor/xnor keeps its two-input kind |
| GateRewrite.AsWrittenDiffersOnlyOnNegative | attack_harpoon.py:37-40 | the written and the corrected tables differ exactly on the negative gates |
| GateRewrite.RewriteKeepsFunction | attack_harpoon.py:37-40 | the rewritten gate is single-input and computes what the two-input gate computed with the cut input held non-controlling |
| GateRewrite.RewriteSettles | attack_harpoon.py:31-40 | a rewritten node is a cut point only if it was a black-box input (left unchanged), and rewriting is idempotent |
| PortNames.HasResetTag | attack_harpoon.py:62 | the substring test `".R" in name`: a '.' directly followed by an 'R' somewhere in the name |
| PortNames.StripResetTag | attack_harpoon.py:72-75 | `replace(".R", "")`: scanning left to right, every non-overlapping ".R" is deleted and every other character kept |
| ResetClassifier.ResetPorts | attack_harpoon.py:61-62 | the black-box input nodes whose name passes the reset test |
| ResetClassifier.IsGenuine | attack_harpoon.py:69-71 | a reset is genuine when some node of kind `bb_output` is among its startpoints |
| ResetClassifier.Instances | attack_harpoon.py:72-75 | for a sequence of resets, the stripped names of those with the given verdict, in sequence order |
| CircuitGraph.TransitiveFanin | attack_harpoon.py:69 | the least driver-closed set holding the drivers of v (not v itself, unless a cycle leads back to it) |
| CircuitGraph.Startpoints | attack_harpoon.py:69 | the nodes of the transitive fanin of v that have no drivers |
| GateRewrite.AffectedKindAsWritten | attack_harpoon.py:37-40 | the rewrite as written: a positive two-input gate becomes `buf`; the second test repeats the positive check, so every other kind, negative gates included, is kept |
| GateRewrite.AffectedKind | attack_harpoon.py:37-40 | the intended rewrite: positive gates become `buf`, negative gates `not`, and a black-box input is kept |
| ResetClassifier.ClassifyResets | attack_harpoon.py:61-75 | visits every `.R` black-box input exactly once, and lists its instance name as original when a flip-flop output is among its startpoints and as obfuscated otherwise, in visiting order; so a name is original exactly when some genuine reset strips to it, obfuscated exactly when some other reset does, and the two lists together are as long as the set of resets |
| ResetClassifier.ClassificationPartitions | attack_harpoon.py:65-75 | together the two lists hold each reset's instance name exactly once (as multisets), and their lengths add up to the number of resets |
| ResetClassifier.ListedIff | attack_harpoon.py:71-75 | a name is listed under a verdict exactly when some reset with that verdict strips to it |
| ResetClassifier.ClassifiedOnce | attack_harpoon.py:71-75 | with distinct instance names, each reset's instance is original iff genuine and obfuscated iff not |
| ResetClassifier.GenuineIffFlipFlopAncestor | attack_harpoon.py:69-71 | a reset counts as original exactly when some driverless flip-flop output has a path into it |
| Neutralizer.FixAffectedNodes | attack_harpoon.py:19-51 | an already visited node changes nothing. A cut point is recorded, cut from its parent, rewritten and not descended into. Otherwise the visited nodes are graph nodes, and the affected ones are exactly those of a cut-point kind. Every load of a visited pass-through node is visited. Each node is entered once, in an order that starts at the root and in which each later node has an edge from an earlier pass-through node. Each affected node lost exactly one in-edge: the one from the parent if it is the root, otherwise one from some visited pass-through driver. Only affected nodes changed kind, each to its rewritten kind |
| Neutralizer.FreshWalkReachesCutPoints | attack_harpoon.py:44-49 | a walk from an unvisited start reaches every node on a pass-through path from the root and marks the first cut point of each such path affected |
| Neutralizer.EnteredNodeReached | attack_harpoon.py:44-49 | every node of a walk's entry order has a pass-through path from the root |
| Neutralizer.FreshWalkExact | attack_harpoon.py:19-51 | a walk started with empty sets visits exactly the nodes a pass-through path from the root reaches, and affects exactly the cut points among them, i.e. the first cut point on each such path |
| Neutralizer.ChainedWalkExact | attack_harpoon.py:83-86 | walk i of the driver loop visits exactly the nodes a pass-through path from its inst.Q reaches, and affects exactly the first cut points on them, in the graph the earlier walks left |
| Neutralizer.KindsRewrittenCompose | attack_harpoon.py:83-86 | two successive walks rewrite as one walk over the union of their affected sets, even when the sets overlap |
| Neutralizer.NeutralizeAll | attack_harpoon.py:81-86 | runs a chain of walks, one per obfuscated instance in order. Walk i is a fresh walk (empty sets, parent DUMMY_INPUT) from inst.Q. It takes the graph from state i to state i + 1, from the loaded graph to the final one, and the returned sets are the unions of the walks' sets. It succeeds exactly when every inst.Q names a node, with all walks run; otherwise it reports the first missing inst.Q after the walks before it. In sum, only visited cut-point nodes are rewritten, and every removed edge enters an affected node from a visited node or from DUMMY_INPUT |
| Neutralizer.ReconnectResets | attack_harpoon.py:90-91 | succeeds exactly when `reset` and every inst.R of the original instances are nodes, and then adds exactly the edges reset -> inst.R; otherwise the missing name is reported |
| Neutralizer.Attack | attack_harpoon.py:54-91 | the classification is that of the loaded graph. The pipeline aborts exactly when an inst.Q, inst.R or `reset` is missing, naming it. On success the kinds and the remaining edges are those after one fresh walk per obfuscated instance, chained as in NeutralizeAll, plus exactly the edges reset -> inst.R. Only cut-point nodes are rewritten, every removed edge enters an affected node, and every original instance's reset port is driven by `reset` |

## Left out

- `remove_unloaded` (attack_harpoon.py:88) belongs to the graph library, and its pruning rule is not part of this model. `Attack` goes straight from neutralisation to reconnection. So its success postcondition says nothing about pruned nodes. Also, whether `reset` and each `inst.R` exist, and so whether it aborts, is decided on the unpruned graph. In the source, `connect` (attack_harpoon.py:91) runs after the pruning, so a port that pruning removed would make it raise.
- Reading and writing netlist files (attack_harpoon.py:57, 93) and black-box declaration (attack_harpoon.py:55) are I/O and library set-up. The circuit is the `Circuit` object passed to `Attack`.
- Command-line parsing (attack_harpoon.py:96-112) and the diagnostic print (attack_harpoon.py:34) are left out. They are I/O.
- Set iteration order (`filter_type`, `fanout`) is left unmodelled. Each choice is nondeterministic, and the contracts hold for every order.
- FixAffectedNodes: the stopping test `ck.fanout(node) is set()` (attack_harpoon.py:26) compares identity with a fresh set, so it never holds. The model leaves it out. A node with no loads still ends the walk, because its loop has nothing to do.
- Neutralizer.FixAffectedNodes: the contract does not fix WHICH in-edge of an affected node is cut when several visited pass-through drivers reach it. The code cuts the edge from the node whose loop reached it first in its depth-first order; the contract only says the cut edge comes from some visited pass-through driver (or from the parent, for the root). So it also admits cut sets that no depth-first order produces. Stating the depth-first discipline would need a model of the nested loop order, which is left out. `NeutralizeAll` and `Attack` take over the same freedom for each walk in their chain.
- FixAffectedNodes: the model uses the corrected rewrite table, so an affected nand/nor/xnor becomes `not` (see Findings).
- Neutralizer.NeutralizeAll: because of the corrected table, its visited and affected sets and removed edges can differ from the code's, not only the labels. As written, an affected nand/nor/xnor stays a cut point. A later walk that reaches it cuts a second input edge and stops there. In the model the node is a `not`, a pass-through node, so a later walk passes through it into its fanout.
- Neutralizer.Attack: differs from the code in the same way as NeutralizeAll once a negative gate has been affected.
- FixAffectedNodes: the model assumes that the library's `disconnect` removes nothing when the parent is `DUMMY_INPUT` or the edge is absent, and does not raise. `Disconnect` is modelled that way.
- Neutralizer.Attack: on an abort, the mutations already made stay in place, as in the source. The postcondition then says only which name was missing.
- Neutralizer.Attack: the model asks that every edge join two existing nodes (`Valid`), as the library's graph always does. So an edge into a missing node, which the library cannot hold, is not modelled.

## Findings

| source | as written | input that shows it | evidently intended | confidence | as-written member | corrected member |
|---|---|---|---|---|---|---|
| attack_harpoon.py:39 | the `elif` repeats the positive-gate test, so an affected negative gate keeps its two-input kind after one of its inputs is cut | an obfuscated instance whose `inst.Q` drives a `nand` gate: the edge is cut and the node stays `nand` with one input | two-input negative gates (nand, nor, xnor) are rewritten to `not` | high, not executed | GateRewrite.NegativeGateKeptAsWritten | GateRewrite.RewriteKeepsFunction |
