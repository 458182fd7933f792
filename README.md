# InfoEngine security and signal organs, in Dafny

This project models the rule-based "organs" of InfoEngine in Dafny and proves what each of them computes.

**The BloodHound privilege-graph engine** (`BloodHoundGraph`) works on a graph of identifiers:
- each identifier has a privilege;
- each directed edge has a weight.

The engine does four things:
- builds its node table and per-source edge lists from a JSON-like description;
- computes forward reachability with a stack and a visited set;
- finds a cheapest route with Dijkstra's search;
- scores a route's *energy*: privilege rises plus edge weights.

Two analyzers are built on the engine:
- the red organ (`BloodHoundRed`) lists the attack paths from every high-value identifier;
- the blue organ (`BloodHoundBlue`) reverses the graph, lists the remediation paths into every high-value identifier, and scores their *stability gain*: privilege drops plus edge weights.

The small rule engines of the repository are modelled beside them:
- the CORS risk table (`Cors`);
- XSS flow scoring (`Xss`);
- the fuzz-and-defend round with its password-style `defend` score (`Cyber`);
- the comparison causal order of a signal, with its relation count and transitive reduction (`CausalSetAnalysis`);
- the threshold event linker (`CausalEvents`);
- the leaky integrate-and-fire neuron (`SpikeNeuron`);
- the NAND gate (`Nand`).

Three helper modules support them:
- `Outcomes`: `Option`, and `Outcome` with its `KeyError` case;
- `Digraph`: successor maps, walks, reachability, and the worklist invariant shared by every traversal;
- `Stats`: sum, first maximum, average.

The code's form is kept throughout:
- The graph engine is a class whose methods update its fields. The red and blue organs are classes that hold the engine and rebuild it on every call. The CORS and XSS organs are classes with only a constant name, as in the code. Each method is proved against a specification function or predicate.
- Loops stay loops, with their invariants.
- The causal matrix and its reduction are `array2` values, written in place.
- Python set iteration is modelled with `:|`, so the order of the attack and remediation paths is left unconstrained.
- A dictionary lookup that can fail (`KeyError`) returns an `Outcome`. The model has no precondition in its place.

## Model

| member | source | states |
|---|---|---|
| BloodHoundGraph.Graph.constructor | backend/organs/cybersecurity/bloodhound_graph.py:30-33 | A new engine has empty node and edge tables and an empty high-value list |
| BloodHoundGraph.Graph.Build | backend/organs/cybersecurity/bloodhound_graph.py:38-60 | The new state is exactly the one the description gives: nodes (later duplicates win, privilege defaults to 1.0), one edge per input edge in input order under its source (weight defaults to 1.0; parallel edges and undeclared endpoints kept), sources in first-appearance order, the high-value list replaced; nothing from an earlier build survives |
| BloodHoundGraph.LoadNodesLookup | backend/organs/cybersecurity/bloodhound_graph.py:44-47 | An identifier is a node key iff some input node has that name, and the stored node is the last input with that name |
| BloodHoundGraph.LoadEdgesOutgoing | backend/organs/cybersecurity/bloodhound_graph.py:50-58 | The edge list of a source is the input edges from that source, in input order |
| BloodHoundGraph.SourceOrderIsKeyOrder | backend/organs/cybersecurity/bloodhound_graph.py:55-56 | The recorded source order lists each key of the edge table exactly once, and nothing else |
| BloodHoundGraph.Graph.ReachableNodes | backend/organs/cybersecurity/bloodhound_graph.py:65-78 | The visited set is exactly the identifiers reachable from `start` by a directed walk, `start` itself included even when undeclared; each identifier is expanded once |
| Digraph.SinkReachesOnlyItself | backend/organs/cybersecurity/bloodhound_graph.py:65-78 | From an identifier without outgoing edges only that identifier is reachable, so reachability yields exactly `{start}` |
| Digraph.ClosedContainsReachable | backend/organs/cybersecurity/bloodhound_graph.py:69-76 | A set that holds `start` and is closed under successors holds everything reachable from `start`: the closure fact the traversal rests on |
| BloodHoundGraph.Graph.ShortestPath | backend/organs/cybersecurity/bloodhound_graph.py:83-105 | `[]` when either end is undeclared; for declared ends, `[]` iff `end` is unreachable; otherwise a walk from `start` to `end` that repeats no identifier and that no other such walk undercuts when weights are non-negative; `[start]` when `end == start` |
| BloodHoundGraph.MinCostIndex | backend/organs/cybersecurity/bloodhound_graph.py:91 | The popped entry has the least cost in the queue |
| BloodHoundGraph.SimpleRoutesAfterSettle | backend/organs/cybersecurity/bloodhound_graph.py:93-103 | Settling an identifier not yet visited and queueing its extended route keeps every queued route free of repeats and made of visited identifiers, so the route returned never repeats an identifier |
| BloodHoundGraph.PopIsMinimal | backend/organs/cybersecurity/bloodhound_graph.py:90-103 | The least-cost entry of the frontier carries a cheapest route to its identifier: the Dijkstra step that makes settling correct |
| BloodHoundGraph.CostPrefix | backend/organs/cybersecurity/bloodhound_graph.py:103 | With non-negative weights a prefix of a walk costs no more than the walk |
| BloodHoundGraph.Graph.ComputePathEnergy | backend/organs/cybersecurity/bloodhound_graph.py:110-134 | 0 for fewer than two identifiers; otherwise a `KeyError` naming the first undeclared identifier, or the sum over steps of the privilege rise plus the weight of the first matching edge |
| BloodHoundGraph.FirstWeightIsFirstMatch | backend/organs/cybersecurity/bloodhound_graph.py:129-132 | The weight added for a step is that of the earliest edge to the next identifier, or 0 when there is none |
| BloodHoundGraph.PathEnergyNonNegative | backend/organs/cybersecurity/bloodhound_graph.py:117-134 | With non-negative weights a path's energy is non-negative |
| BloodHoundRed.AttackPathsFrom | backend/organs/cybersecurity/bloodhound_red_organ.py:30-47 | The routes from one high-value identifier: one per declared identifier other than `start` that `start` reaches, none for an undeclared `start`, each a shortest path repeating no identifier, scored as the engine scores it, with the escalation note; or the `KeyError` of scoring, naming an undeclared identifier on such a path from `start` to one of its escalation targets |
| BloodHoundRed.RedOrgan.constructor | backend/organs/cybersecurity/bloodhound_red_organ.py:19-21 | The organ is named `bloodhound_red` and owns a graph engine of its own, fresh at creation |
| BloodHoundRed.RedOrgan.ComputeAttackPaths | backend/organs/cybersecurity/bloodhound_red_organ.py:23-49 | Rebuilds the shared graph from the input; the routes are one block per high-value entry, in list order, each route a shortest path repeating no identifier; a `KeyError` names an undeclared identifier on such a path from a high-value entry to one of its escalation targets |
| BloodHoundRed.BlockRoutes | backend/organs/cybersecurity/bloodhound_red_organ.py:30-46 | Each attack path starts at its high-value identifier and ends at a different, reachable, declared one, and its energy is the path's energy |
| BloodHoundRed.UndeclaredStartContributesNothing | backend/organs/cybersecurity/bloodhound_red_organ.py:30-37 | An undeclared high-value identifier contributes no attack path |
| BloodHoundRed.BlockSize | backend/organs/cybersecurity/bloodhound_red_organ.py:31-37 | A block holds exactly one route per escalation target of its start |
| BloodHoundRed.AttackPathCount | backend/organs/cybersecurity/bloodhound_red_organ.py:30-47 | The number of attack paths is the sum, over the high-value list with its duplicates, of the escalation targets of each entry |
| BloodHoundRed.RepeatedStart | backend/organs/cybersecurity/bloodhound_red_organ.py:30 | A high-value identifier listed at any two positions of the list yields two full, separate blocks of routes from it |
| BloodHoundRed.EntryBlock | backend/organs/cybersecurity/bloodhound_red_organ.py:30-47 | Entry i of the high-value list owns a full block of routes from it, placed after the routes of every earlier entry |
| Stats.FirstMaxIndex | backend/organs/cybersecurity/bloodhound_red_organ.py:60 | Python's `max` with a key: an index whose entry bounds every entry, with every earlier entry strictly smaller, so the first maximum |
| BloodHoundRed.Summarize | backend/organs/cybersecurity/bloodhound_red_organ.py:51-67 | Count 0, zero energies and no path for an empty list; otherwise the count, a maximal energy that bounds every energy, and the path of the first record reaching it |
| BloodHoundRed.SummaryAverage | backend/organs/cybersecurity/bloodhound_red_organ.py:65 | The mean energy is at most the maximal one, and non-negative when all energies are |
| BloodHoundRed.RedOrgan.Process | backend/organs/cybersecurity/bloodhound_red_organ.py:69-91 | Rebuilds the whole graph state from the input; the report names the organ, lists the computed attack paths unchanged and in order, and summarizes them; a `KeyError` only names an undeclared identifier on a shortest path repeating no identifier, from a high-value entry to one of its escalation targets |
| BloodHoundBlue.BlueOrgan.constructor | backend/organs/cybersecurity/cyber_origin_organ.py:19-21 | The organ is named `bloodhound_blue` and owns a graph engine of its own, fresh at creation |
| BloodHoundBlue.BlueOrgan.ReverseEdges | backend/organs/cybersecurity/cyber_origin_organ.py:26-33 | The loop yields the reverse pass over the engine's edges in dictionary order |
| BloodHoundBlue.ReverseOfSpec | backend/organs/cybersecurity/cyber_origin_organ.py:26-33 | The reverse pass succeeds iff every edge ends at a declared identifier; it then keys every declared identifier and lists the source of each edge into it, once per edge; otherwise a `KeyError` names the target of the first edge into an undeclared identifier |
| BloodHoundBlue.ReverseIsTranspose | backend/organs/cybersecurity/cyber_origin_organ.py:27-31 | A successful reverse pass is the transpose of the forward graph, keyed by the declared identifiers |
| BloodHoundBlue.BlueOrgan.ReverseReachable | backend/organs/cybersecurity/cyber_origin_organ.py:35-48 | Lists without repetition exactly the identifiers reachable from `start` in the reverse graph, `start` included |
| Digraph.ReachesTransposed | backend/organs/cybersecurity/cyber_origin_organ.py:35-48 | Reachability in the transpose is reachability backwards: the backward set of `hv` is exactly the identifiers from which `hv` is reachable |
| BloodHoundBlue.BlueOrgan.ComputeStabilityGain | backend/organs/cybersecurity/cyber_origin_organ.py:87-113 | 0 for fewer than two identifiers; otherwise a `KeyError` for the first undeclared identifier, or the sum of privilege drops plus first-edge weights |
| BloodHoundBlue.PathGainNonNegative | backend/organs/cybersecurity/cyber_origin_organ.py:95-111 | With non-negative weights the stability gain is non-negative |
| BloodHoundBlue.EnergyMinusGain | backend/organs/cybersecurity/cyber_origin_organ.py:97-111 | For a declared path, energy minus stability gain is the last identifier's privilege minus the first's |
| BloodHoundBlue.BlueOrgan.RemediationPathsInto | backend/organs/cybersecurity/cyber_origin_organ.py:59-80 | The routes into one high-value identifier: one from each declared identifier other than `hv` that reaches it, each a shortest path repeating no identifier, scored by gain, with the remediation note |
| BloodHoundBlue.BlockRoutes | backend/organs/cybersecurity/cyber_origin_organ.py:62-80 | Each remediation path starts at an identifier that reaches `hv` and differs from it, ends at `hv`, and its gain is the path's gain |
| BloodHoundBlue.BlueOrgan.ComputeRemediationPaths | backend/organs/cybersecurity/cyber_origin_organ.py:53-82 | Rebuilds the shared graph; fails exactly with the reverse pass's `KeyError`; otherwise one block per high-value entry, in list order, each route a shortest path repeating no identifier |
| BloodHoundBlue.ListOf | backend/organs/cybersecurity/cyber_origin_organ.py:48 | Turns a set into a list holding each member exactly once |
| BloodHoundBlue.Summarize | backend/organs/cybersecurity/cyber_origin_organ.py:118-134 | Count 0, zero gains and no path for an empty list; otherwise the count, a maximal gain bounding every gain, and the path of the first record reaching it |
| BloodHoundBlue.SummaryAverage | backend/organs/cybersecurity/cyber_origin_organ.py:132 | The mean gain is at most the maximal one, and non-negative when all gains are |
| BloodHoundBlue.BlueOrgan.Process | backend/organs/cybersecurity/cyber_origin_organ.py:139-153 | The report names the organ, lists the computed remediation paths unchanged and in order, and summarizes them; rebuilds the whole graph state from the input; fails exactly when the reverse pass fails, with its `KeyError`, even for an empty high-value list |
| Cors.CorsOrgan.constructor | backend/organs/cybersecurity/cors_organ.py:32-33 | The organ is named `cors` |
| Cors.CorsOrgan.BuildRules | backend/organs/cybersecurity/cors_organ.py:38-50 | One rule per input entry, in order; missing flags default to false and missing notes to empty |
| Cors.Permeability | backend/organs/cybersecurity/cors_organ.py:59-64 | Permeability lies in [1, 2] and is 2 exactly for wildcard rules |
| Cors.Risk | backend/organs/cybersecurity/cors_organ.py:66-75 | Risk lies in [0.5, 3], reaches the high-risk bar 2 exactly when credentials are allowed, and is 3 exactly for wildcard with credentials |
| Cors.WildcardRaisesRisk | backend/organs/cybersecurity/cors_organ.py:59-75 | Turning on the wildcard strictly raises both risk and permeability |
| Cors.CorsOrgan.ComputeEdges | backend/organs/cybersecurity/cors_organ.py:55-87 | One edge per rule, in order, from the API origin to the allowed origin, with its permeability and risk; empty notes become "CORS rule" |
| Cors.HighRiskPairsMembers | backend/organs/cybersecurity/cors_organ.py:101-105 | A pair label is listed iff some edge with risk at least 2 carries it |
| Cors.HighRiskIsCredentialed | backend/organs/cybersecurity/cors_organ.py:101-105 | The high-risk pairs are exactly the pairs of the credentialed rules, in rule order |
| Cors.Summarize | backend/organs/cybersecurity/cors_organ.py:92-112 | All zero and no pairs for no edges; otherwise the rule count and the high-risk pairs |
| Cors.SummaryOfRules | backend/organs/cybersecurity/cors_organ.py:101-112 | For a non-empty rule list: the count, mean permeability in [1, 2], mean risk in [0.5, 3], pairs = credentialed rules |
| Cors.CorsOrgan.Process | backend/organs/cybersecurity/cors_organ.py:117-134 | The report names the organ, holds one edge per input entry in order, and its summary |
| Xss.XssOrgan.constructor | backend/organs/cybersecurity/xss_organ.py:31-32 | The organ is named `xss` |
| Xss.XssOrgan.BuildSinks | backend/organs/cybersecurity/xss_organ.py:37-48 | One sink per input entry, in order; severity defaults to 1.0 and the description to empty |
| Xss.XssOrgan.ComputeFlows | backend/organs/cybersecurity/xss_organ.py:53-70 | One flow per sink, in order, attacker to victim, energy twice the severity, an empty description replaced by "XSS sink" |
| Xss.AtLeastMembers | backend/organs/cybersecurity/xss_organ.py:85 | A label is listed iff some flow with energy at least the bar carries it |
| Xss.Summarize | backend/organs/cybersecurity/xss_organ.py:75-92 | All zero and no sinks for no flows; otherwise the count and a maximal energy that bounds every flow and is reached by one |
| Xss.SummaryCritical | backend/organs/cybersecurity/xss_organ.py:84-92 | With flows, the critical list is non-empty and holds exactly the labels of flows of maximal energy, and the mean is at most the maximum |
| Xss.CriticalSinksAreMostSevere | backend/organs/cybersecurity/xss_organ.py:59-85 | The maximal energy is twice a sink's severity iff no sink is more severe, and such a sink is listed as critical |
| Xss.XssOrgan.Process | backend/organs/cybersecurity/xss_organ.py:97-113 | The report names the organ, holds one flow per input entry in order, and its summary |
| Cyber.Defend | backend/organs/cyber.py:10-25 | The score is at most 4; it is 4 iff the string has a special character, a digit, an upper-case letter and more than ten characters, and 0 iff it has none of these |
| Cyber.DefendEmpty | backend/organs/cyber.py:10-25 | The empty string scores 0 |
| Cyber.DefendShort | backend/organs/cyber.py:22-23 | A string of at most ten characters scores at most 3 |
| Cyber.DefendMonotone | backend/organs/cyber.py:13-23 | Appending characters never lowers the score |
| Cyber.GenerateFuzz | backend/organs/cyber.py:5-8 | Exactly `length` characters, each from letters, digits and the special characters |
| Cyber.CyberRound | backend/organs/cyber.py:27-37 | The fuzz has 8 characters, the score is its `defend` score, the next seed is 17 times the score and so one of 0, 17, 34, 51 |
| CausalSetAnalysis.Analyze | backend/organs/computation/causal_set.py:14-44 | The error result iff the signal has fewer than two samples; otherwise an n×n matrix with a one exactly where `i < j` and `x[i] < x[j]`, the count of related pairs (at most n(n-1)/2), and a reduction with a one exactly at the covering pairs |
| CausalSetAnalysis.CausalMatrix | backend/organs/computation/causal_set.py:22-26 | The matrix written in place holds the order: a one exactly where the row precedes the column |
| CausalSetAnalysis.CountRelations | backend/organs/computation/causal_set.py:29 | The sum of the matrix is the number of related pairs |
| CausalSetAnalysis.Reduce | backend/organs/computation/causal_set.py:32-38 | Clearing the copy leaves a one exactly at the pairs related with no intermediate sample |
| CausalSetAnalysis.Copy | backend/organs/computation/causal_set.py:32 | The reduction starts as an entry-for-entry copy of the matrix |
| CausalSetAnalysis.PrecedesTransitive | backend/organs/computation/causal_set.py:22-26 | The causal relation is transitive |
| CausalSetAnalysis.RelationsCountPairs | backend/organs/computation/causal_set.py:29 | The counted relations are the size of the set of related pairs |
| CausalSetAnalysis.RelationsBound | backend/organs/computation/causal_set.py:22-29 | At most n(n-1)/2 pairs are related, with equality for a strictly increasing signal |
| CausalSetAnalysis.LinkChainPrecedes | backend/organs/computation/causal_set.py:32-38 | A chain of covering links only relates ordered pairs: the reduction adds nothing to the order |
| CausalSetAnalysis.LinksGenerateOrder | backend/organs/computation/causal_set.py:32-38 | Every related pair is joined by a chain of covering links: the reduction loses nothing of the order |
| CausalEvents.EventsAboveThreshold | backend/organs/causal_set.py:6 | Every event is the index of a sample above the threshold |
| CausalEvents.EventsComplete | backend/organs/causal_set.py:6 | Every sample above the threshold is an event |
| CausalEvents.EventsAscending | backend/organs/causal_set.py:6 | The events are strictly ascending |
| CausalEvents.NoEvents | backend/organs/causal_set.py:6 | Without a sample above the threshold there are no events |
| CausalEvents.LinkedEventsAreConsecutive | backend/organs/causal_set.py:6-10 | No sample strictly between two linked events exceeds the threshold |
| CausalEvents.BuildCausalSet | backend/organs/causal_set.py:4-15 | The threshold defaults to 0.5; the events of the signal; `max(0, events-1)` links, link i joining events i and i+1; each link ascending, within the signal and between events |
| SpikeNeuron.Step | backend/organs/computation/spike_neuron.py:10-15 | A recorded potential never exceeds the threshold, and a spike resets it to rest |
| SpikeNeuron.Simulate | backend/organs/computation/spike_neuron.py:4-18 | Both outputs have the input's length; each potential is the state after the inputs so far, starting at rest with `V + 10·I - 1` then the threshold test; each spike is 0 or 1 and a spike's potential is rest; no potential exceeds the threshold |
| SpikeNeuron.QuietNeuronNeverFires | backend/organs/computation/spike_neuron.py:5-16 | Without positive input the neuron stays at or below rest and never fires |
| SpikeNeuron.LeakWithoutInput | backend/organs/computation/spike_neuron.py:5-16 | With zero input the potential leaks by one per step from rest |
| Nand.Nand | backend/organs/nand.py:5-12 | The result is 0 or 1, and 0 iff both inputs are 1 |
| Nand.TruthTable | backend/organs/nand.py:6-12 | The four rows of the truth table on bits |
| Nand.Symmetric | backend/organs/nand.py:12 | NAND is symmetric |
| Nand.NonBitIsFalse | backend/organs/nand.py:12 | An input other than 1, including values outside {0, 1}, makes the result 1 |

## Left out

- Web routing is not modelled: the Flask and FastAPI plumbing, including the NAND route at backend/organs/nand.py:14-19.
- The organ registry is not modelled: its import of a `CyberOriginOrgan` that does not exist (backend/organs/registry.py:4) means it is not logic.
- Cyber.GenerateFuzz: the seeded random generator is a parameter `pick`, so which characters are drawn is not modelled; only the length and the alphabet are.
- Cyber.Defend: `isdigit` and `isupper` are modelled on ASCII only; Python also accepts other Unicode digits and upper-case letters.
- BloodHoundGraph.Graph.ShortestPath: only cost minimality is proved, not which equal-cost route is returned. Python breaks ties by comparing `(cost, node, path)` tuples; the model pops the first least-cost entry.
- BloodHoundGraph.Graph.ShortestPath: minimality is stated for non-negative weights only, because Dijkstra's search promises nothing otherwise. A route's cost counts the cheapest of its parallel edges.
- The order of attack and remediation paths, which follows Python set iteration, is left unconstrained. The model picks members with `:|`. So the model does not claim that calling `process` twice returns the same list. It does prove that each call rebuilds the graph wholly from its input, so both results meet the same specification, fixed by the input alone.
- Malformed input is not modelled: a node or edge without its required `name`, `source` or `target` key, or a value of the wrong type. Inputs are typed records whose optional fields are `Option`s.
- Python truthiness of non-boolean flags is not modelled: CORS `allows_credentials` and `wildcard` are booleans.
- Privileges, weights, severities, signals and potentials are `real`. IEEE rounding, infinities and NaN are not modelled.
- NumPy dtypes are not modelled: matrix entries are `int`, and the signal and the event threshold are `real`.
- The empty summaries return Python `int` zeros where the non-empty ones return floats; the model uses `0.0` in every case.
- The rest of the repository is not part of this model: the frontend, the numeric NumPy organs, hashing and the stubs.
