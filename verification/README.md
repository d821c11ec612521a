# Byzantine reliable broadcast: a verified model

The repository implements reliable broadcast when up to `f` of `n` nodes are
faulty and the network is not complete. This project models its four hard parts
and proves what they are for.

**Dolev dissemination** (`Dissemination`, `DolevHandler`, `DolevNetwork`,
`DolevDelivery`, `DolevRest`, `DolevSilence`, `DisjointSearch`, `FullSearch`,
`SearchFailure`, `Permutation`, `Taint`). A node stores the node set of every received path and
delivers when `f + 1` paths from different link senders are disjoint outside the
source. `FullSearch.MsgCanBeDelivered` follows the handler's loops (combinations by
`std::prev_permutation`, the odometer over stored paths, the union bitmask) with every
combination the code visits, and reports a read beyond a list instead of making it.
`Dissemination.Disseminator` keeps the fields that both handlers have for this, and
its methods are proved against a step function. `DolevNetwork` runs that function at
every node of an arbitrary graph, with a bag of messages and faulty nodes that send
anything over their own links.

**Bracha over Dolev** (`BrachaDolevHandler`, `BrachaDolev`, `BrachaDolevDelivery`,
`BrachaDolevRest`, `BrachaDolevTotality`, `BrachaDolevHistory`), **over certified
propagation** (`BrachaCpa`, `BrachaCpaDelivery`, `BrachaCpaRest`, `BrachaCpaValidity`,
`BrachaCpaHistory`) and **on a complete graph** (`Bracha`, `BrachaHistory`). Each has a
class with the handler's fields, proved against step functions, and theorems over all
runs. The `History` modules say what a node's state is, exactly, in terms of the messages
it has handled. `HandlerSimulation` shows that each call of a code3 handler is the step of
the network model at that node, message headers and messages sent included. `Topology` has the quorum size and the
neighbour lists they start from; `Weights` and `PathHeights` show that runs end.

**Path recognition by maximum flow** (`Blocks`, `MaxFlow`, `LayeredGraph`,
`PathGraph`) and the **superpath filter** (`SuperpathFilter`) of the simulator. The
breadth-first search, the bottleneck and update loops and the outer loop over target
layers are the source's, on arrays. The matrix is not cleared between layers, and
`LayeredGraph` says what one layer's flow may leave behind for the next.

**Topology generators** (`Graph`, `Wheels`, `KPastedTree`, `KPasted`, `Relabelling`):
the generalized wheel, the multipartite wheel and the k-pasted graph are built by
loops, and what they build is proved k-connected: it has more than `k` nodes and
stays connected when any `k - 1` are removed. `Menger` (the theorem of that name) and `Routes` turn that into
what the protocols need, `f + 1` disjoint routes of correct nodes, and
`ConnectedNetworks` draws the conclusion: on the generated graphs broadcasts of
correct nodes reach all correct nodes.

`Counting` holds the cardinality facts, `Options` and `Phases` two shared datatypes.

## Where the code does not do what one would expect

- MOD_1 (direct delivery) does not look at the path, and a correct source relays
  copies that name it as broadcaster. A faulty neighbour can bounce a forged copy
  off the source. `DolevNetwork.NoForgeryExactly` gives the exact condition under
  which no forgery is possible.
- For a combination of link senders without the newest one, the search starts slot
  0 at the size of another sender's list. `FullSearch.ReadsBeyondExactly` says when
  it reads beyond a list, and the handlers' contracts carry that outcome.
  `SearchFailure.SearchCanFail` reaches it, under any modifications, with three
  messages of one faulty node, and `SearchFailure.PinnedSlotCanLeaveItsList` does so
  on the complete graph of six nodes with all modifications on. Whenever the search
  answers, its answer is right (`DolevNetwork.FullSearchAgrees`), and the same as that
  of a search over the combinations with the link sender only, which the TODO at
  code3/App/DolevHandler.cpp:58 asks for. The runs in `DolevNetwork` and `BrachaDolev`
  take that answer at every step.
- `init_dolev_broadcast` and `mId` disagree: `echoOrReadySender` is not set at
  code3/App/DolevHandler.cpp:117-122, so whether the source later recognises its own
  message as delivered depends on what was in memory. The model's broadcast step
  takes both outcomes.
- Under MOD_1 the same bounce works for every Echo and Ready of Bracha over Dolev, off
  its originator. `BrachaDolev.CountingIsGenuineExactly` gives the exact condition under
  which, with a correct broadcaster, only genuine messages are counted.
- The Bracha-Dolev disjointness test leaves out the broadcaster and not the
  originator of the Echo or Ready (code3/App/BrachaDolevHandler.cpp:142-162). So a
  faulty broadcaster makes a correct node count an Echo that its correct originator
  never sent, for every `f` and under any modifications
  (`BrachaDolev.FaultyBroadcasterForges`, `BrachaDolev.GenuineExactly`).
- For the same reason Bracha over Dolev, as deployed, loses totality to a faulty
  broadcaster. It forges Readys of `2f` correct nodes that only one correct node
  counts; that node delivers, nothing is left in transit, and no other correct node
  ever delivers (`BrachaDolevTotality.TotalityFails`). With `f` faulty nodes on a
  complete graph totality holds in every run exactly when the broadcaster is correct
  (`BrachaDolevTotality.TotalityExactly`), and so does the claim that a delivery
  rests on `f + 1` correct Readys (`BrachaDolevTotality.DeliveriesRestExactly`).
- A counted Ready of the broadcaster alone makes a node send its own
  (code3/App/BrachaDolevHandler.cpp:339). A faulty broadcaster thus produces Readys of
  correct nodes although nobody has seen an Echo: `BrachaDolevTotality.ReadyOriginExactly`.
- Over certified propagation a node that sends its Ready first is marked as having
  sent its Echo, and never sends it (BroadcastSign/src/BrachaCPA.cc:206-207). Up to
  `f - 1` correct nodes can be driven past their Echo by the Readys of the faulty nodes
  and of the broadcaster; if the others are fewer than an echo quorum, a broadcast by a
  correct node is never delivered, for example with `n = 7` and `f = 2`.
  `BrachaCpaValidity.ValidityExactly` has the exact condition on complete graphs,
  `n - f >= quorum + f - 1` for `f > 0`.
- In Bracha over Dolev an Echo can make a node send its own Ready without the test for
  delivery (code3/App/BrachaDolevHandler.cpp:248-252). At rest only a lone node is left
  undelivered by that: `BrachaDolevDelivery.ValidityExactly`.
- The simulator's Bracha node answers any first message with its Echo
  (BroadcastSign/src/Bracha.cc:98). `Bracha.IntegrityExactly` shows the price: with
  a single faulty node a broadcast that its correct broadcaster never started can be
  delivered by all.
- A lone node never delivers its own broadcast (`Bracha.ValidityExactly`).
- MOD_3 is a constructor argument that no handler reads.
- `insertPathIntoGraph` writes beyond its graph when a path has more than `n + 1`
  entries; the model reports that instead.
- The multipartite wheel generator divides by `k / 2`, and for negative even `k` returns
  isolated nodes.
- With `k = 1` the k-pasted generator returns a node too few for `n = 3` and pops an
  empty list for larger `n`.

## Model

| member | source | states |
|---|---|---|
| Permutation.PrevOnes | code3/App/DolevHandler.cpp:105 | the step to the previous permutation keeps the number of selected senders and moves strictly down |
| Permutation.PrevIsPredecessor | code3/App/DolevHandler.cpp:105 | the step skips no selection of the same size, so the enumeration visits every choice of `f + 1` link senders |
| Permutation.TopIsLast | code3/App/DolevHandler.cpp:35-36 | the string of `f + 1` ones followed by zeros is the greatest selection, so starting there misses none |
| DisjointSearch.NothingBetween | code3/App/DolevHandler.cpp:89-100 | one odometer step skips no index tuple that keeps the link sender's slot |
| DisjointSearch.Advance | code3/App/DolevHandler.cpp:89-100 | the odometer moves to the next index tuple with the link sender's slot pinned, or reports that all slots are at their end |
| DisjointSearch.MarkPath | code3/App/DolevHandler.cpp:72-82 | one path is added to the union, the source excepted, and a clash means that it meets an earlier path |
| DisjointSearch.AllApart | code3/App/DolevHandler.cpp:69-83 | the union bitmask reports disjoint iff the chosen paths are pairwise disjoint outside the source |
| DisjointSearch.Select | code3/App/DolevHandler.cpp:39-56 | a combination is valid iff each of its senders has a stored path; it lists exactly the selected senders and where the link sender stands |
| DisjointSearch.SearchTuples | code3/App/DolevHandler.cpp:59-103 | the odometer loop terminates and finds a disjoint tuple iff one exists among the tuples from the starting indices on that keep the pinned slot, if there is one |
| DisjointSearch.MsgCanBeDelivered | code3/App/DolevHandler.cpp:58 | the search that the TODO asks for, over combinations with the link sender: true iff the newest path and `f` stored paths from `f` other link senders are pairwise disjoint outside the source |
| DisjointSearch.GrownFamily | code3/App/DolevHandler.cpp:179-195 | after one more stored path, `f + 1` disjoint paths exist iff they existed before or the newest path is part of them |
| FullSearch.Examine | code3/App/DolevHandler.cpp:39-103 | one combination, with or without the link sender: beyond a list, disjoint, or neither, exactly as the code's starting indices and loop make it |
| FullSearch.MsgCanBeDelivered | code3/App/DolevHandler.cpp:31-108 | the search over all combinations answers with the first one, in the library's order, that decides |
| FullSearch.ReadsBeyondExactly | code3/App/DolevHandler.cpp:38-105 | the search reads beyond a list iff some combination starts beyond one and no combination examined earlier finds a disjoint family without doing so itself |
| FullSearch.AnswerIsRight | code3/App/DolevHandler.cpp:31-108 | while every disjoint family uses the newest path, the search answers rightly unless it reads beyond a list; it never does when no combination starts beyond one, and always does when one does and there is nothing to find |
| DolevNetwork.FullSearchAgrees | code3/App/DolevHandler.cpp:58-108 | the same in every run: at an undelivered node the search over all combinations answers as the one over those with the link sender, except exactly when it reads beyond a list |
| SearchFailure.SearchCanFail | code3/App/DolevHandler.cpp:42-72 | under any modifications, one faulty node with three correct neighbours brings an undelivered node, of which nothing can be delivered, to a message on which the search reads beyond a list |
| SearchFailure.PinnedSlotCanLeaveItsList | code3/App/DolevHandler.cpp:42-72 | such a run on the complete graph of six nodes, one of them faulty, with all modifications on |
| Dissemination.RelayLoop | code3/App/DolevHandler.cpp:202-227 | an empty path to every neighbour but the originator after a delivery, otherwise the assembled path to every neighbour that is not on it |
| Dissemination.GoesThrough | code3/App/DolevHandler.cpp:151-155 | a path is refused iff it goes through a node known to have delivered |
| Dissemination.StaysUndecided | code3/App/DolevHandler.cpp:183-200 | each step keeps: an undelivered message has no `f + 1` disjoint stored paths |
| Dissemination.StaysDecided | code3/App/DolevHandler.cpp:185-200 | each step keeps: a message is delivered iff `f + 1` disjoint paths of it are stored or, under MOD_1, one from its originator |
| Dissemination.Disseminator.NoteEmptyPath | code3/App/DolevHandler.cpp:150-159 | MOD_4: paths through nodes that sent an empty path are ignored, a new sender of an empty path is remembered |
| Dissemination.Disseminator.StorePath | code3/App/DolevHandler.cpp:173-183 | the node set of the path goes to the end of the link sender's list of that identifier |
| Dissemination.Disseminator.Deliver | code3/App/DolevHandler.cpp:185-200 | delivery is direct under MOD_1, or by `f + 1` disjoint paths when not delivered before, and the search as written reads beyond a list exactly under its condition |
| Dissemination.Disseminator.Disseminate | code3/App/BrachaDolevHandler.cpp:199-280 | what all handlers do with a copy: filter, store, search, mark delivered, relay; no other identifier changes, and no undelivered message has `f + 1` disjoint stored paths |
| DolevHandler.Node.InitDolevBroadcast | code3/App/DolevHandler.cpp:110-134 | one message with an empty path for every neighbour, a new broadcast number, its own key marked delivered, no other identifier touched |
| DolevHandler.Node.HandleDolev | code3/App/DolevHandler.cpp:136-231 | a read beyond a list exactly under its condition; otherwise the identifier's new state and the messages sent are those of the step function; all other identifiers keep their state |
| HandlerSimulation.NewDolevNode | code3/App/DolevHandler.cpp:6-29 | a new node is an entry of the network's initial state |
| HandlerSimulation.StartDolev | code3/App/DolevHandler.cpp:110-134 | the first call is the network's broadcast step at the source, with the same messages |
| HandlerSimulation.ReceiveDolev | code3/App/DolevHandler.cpp:136-231 | a call of the handler is the network's step at this node, under the Dolev header of this broadcast and source; it sends the same messages and leaves all other broadcasts alone |
| DolevSilence.DeliveredExactly | code3/App/DolevHandler.cpp:185-200 | in every run, under any modifications, a node other than the source has delivered iff it has stored `f + 1` disjoint paths or, under MOD_1, one that came from the source |
| DolevSilence.DeliveredIsSilent | code3/App/DolevHandler.cpp:148 | under MOD_5 a message to a node that has delivered is taken out of transit and changes nothing else |
| DolevSilence.NothingMoreIsSent | code3/App/DolevHandler.cpp:148 | so after its delivery a node keeps its state and sends nothing more in any continuation of the run |
| DolevSilence.KnownPathIsIgnored | code3/App/DolevHandler.cpp:150-155 | under MOD_4 a message whose path goes through a node known to have delivered changes nothing else either |
| DolevSilence.EmptyPathSilences | code3/App/DolevHandler.cpp:150-159 | in every run under MOD_4, once a node has handled an empty path from a neighbour it ignores all later paths through that neighbour |
| DolevSilence.CountedIsSilent | code3/App/BrachaDolevHandler.cpp:202-213 | the same two for every Echo and Ready of Bracha over Dolev |
| DolevNetwork.EveryMessageCanBeHandled | code3/App/DolevHandler.cpp:136-231 | in every run a correct node can handle every message that reaches it: stored lists keep their shape |
| DolevNetwork.UndecidedAlways | code3/App/DolevHandler.cpp:183-200 | in every run, under any modifications, an undelivered correct node holds no `f + 1` disjoint paths |
| DolevNetwork.OnlyTheNewestPathMatters | code3/App/DolevHandler.cpp:58 | at an undelivered node every set of `f + 1` disjoint paths uses the path just stored |
| Taint.TaintedFamilyIsSmall | code3/App/DolevHandler.cpp:66-102 | disjoint paths that each contain a faulty node are at most as many as the faulty nodes, if the node left out is correct |
| Taint.ForgeryNeedsAFaultySource | code3/App/BrachaDolevHandler.cpp:142-162 | of all path lists in which every path holds a faulty node, none has `f + 1` disjoint paths iff the node left out of the comparison is correct (lists; BrachaDolev.GenuineExactly speaks of runs) |
| DolevNetwork.TracesBeforeBroadcastAreTainted | code3/App/DolevHandler.cpp:136-231 | before the source broadcasts no correct node has delivered and every stored or relayed path contains a faulty node |
| DolevNetwork.BounceForges | code3/App/DolevHandler.cpp:186-205 | a three-step run in which a correct node delivers, under MOD_1, what the source never broadcast |
| DolevNetwork.NoForgeryExactly | code3/App/DolevHandler.cpp:31-231 | correct nodes deliver only what the source broadcast iff MOD_1 is off, or the source has no faulty neighbour, or no correct one |
| DolevDelivery.ProgressAlways | code3/App/DolevHandler.cpp:136-231 | with all modifications on, in every run each copy a correct node owes a neighbour was sent, is pending, was stored or was rightly ignored |
| DolevDelivery.Travel | code3/App/DolevHandler.cpp:148-227 | in a quiescent state the broadcast has travelled along every correct route, as a stored path within that route, although nodes relay empty paths and fall silent |
| DolevDelivery.RoutesGiveFamily | code3/App/DolevHandler.cpp:172-227 | disjoint correct routes leave as many disjoint stored paths at an undelivered node |
| DolevDelivery.DeliveredWhenQuiescent | code3/App/DolevHandler.cpp:136-231 | once the source has broadcast and nothing is pending between correct nodes, every correct neighbour and every correct node with `f + 1` disjoint correct routes has delivered |
| PathHeights.RelayIsLower | code3/App/DolevHandler.cpp:171-226 | a relayed copy has one more node behind it than the copy it came from |
| DolevRest.RunsComeToRest | code3/App/DolevHandler.cpp:136-231 | under any modifications every run can be continued, by correct nodes alone, until nothing is left to handle |
| DolevRest.BroadcastsAreDelivered | code3/App/DolevHandler.cpp:136-231 | with all modifications on, every run in which the source has broadcast leads, by steps of correct nodes, to a state in which every node it can reach by a link or `f + 1` disjoint correct routes has delivered |
| Topology.QuorumSize | BroadcastSign/src/Peer.cc:168-171 | the smallest size of which two sets overlap in more than `f` nodes; reachable by the correct nodes iff `n >= 3f + 1`, and then at least `2f + 1` |
| Topology.ByzQuorumSize | code3/App/Handler.cpp:52-56 | rounding `n + f + 1` up to even and halving gives that size, for both parities |
| Topology.QuorumsShareACorrectNode | code3/App/Handler.cpp:52-56 | any two quorums have a correct node in common |
| Topology.Connect | code3/App/Handler.cpp:58-72 | the matrix holds exactly the listed pairs, in both directions, without self-loops |
| Topology.SelfNeighbors | code3/App/Handler.cpp:58-82 | a node's neighbours are exactly the nodes paired with it, in increasing order, each once |
| BrachaDolevHandler.Node.InitBroadcast | code3/App/BrachaDolevHandler.cpp:35-65 | an own Echo with an empty path for every neighbour, counted at home, its HDR_DOLEV key marked delivered, a new broadcast number |
| BrachaDolevHandler.Node.EchoPhase | code3/App/BrachaDolevHandler.cpp:238-253 | counting an Echo sends the own Echo and Ready when due, in that order |
| BrachaDolevHandler.Node.ReadyPhase | code3/App/BrachaDolevHandler.cpp:334-348 | counting a Ready sends the own Ready when due and delivers on `2f + 1`, the own one included |
| BrachaDolevHandler.Node.HandleEcho | code3/App/BrachaDolevHandler.cpp:186-281 | whole effect of an Echo: a read beyond a list exactly under its condition, otherwise the message state, the phases of its broadcast, the messages sent, and nothing else |
| BrachaDolevHandler.Node.HandleReady | code3/App/BrachaDolevHandler.cpp:283-378 | whole effect of a Ready, likewise |
| HandlerSimulation.NewNode | code3/App/BrachaDolevHandler.cpp:9-33 | a new node is an entry of the network's initial state |
| HandlerSimulation.Start | code3/App/BrachaDolevHandler.cpp:35-65 | the first call is the network's broadcast step at the broadcaster, with the same messages |
| HandlerSimulation.Receive | code3/App/BrachaDolevHandler.cpp:186-378 | the handler of the message's kind does the network's step at this node, on the entry of that header, broadcast and originator and on no other; it sends the same messages and leaves all other broadcasts alone |
| BrachaDolevHistory.CountsFollowFromPaths | code3/App/BrachaDolevHandler.cpp:230-253 | in every run, on every graph and under any modifications, a node counts an Echo or Ready iff its stored paths decide it or it is the node's own, and its own were due |
| BrachaDolevHistory.TestsAreMade | code3/App/BrachaDolevHandler.cpp:238-253 | whatever was counted before, an Echo puts all tests for the own Echo and Ready into effect, and a Ready (:334-347) those for the own Ready and the delivery |
| BrachaDolevHistory.ReadyTestOnEchoIsIdle | code3/App/BrachaDolevHandler.cpp:250 | in no run is it the test for `f + 1` Readys on an Echo that calls for the own Ready |
| BrachaDolevHistory.DeliveredExactly | code3/App/BrachaDolevHandler.cpp:343-347 | a node has delivered iff it counts `2f + 1` Readys, except that its own one, added on an Echo, is not enough |
| BrachaDolev.ForgedStaysTainted | code3/App/BrachaDolevHandler.cpp:214-236 | an Echo or Ready its correct originator never sent has a faulty node on every path and is not accepted, unless it can bounce off that originator |
| BrachaDolev.NetKeepsAlways | code3/App/BrachaDolevHandler.cpp:99-378 | without such bounces, and with a broadcaster that is correct or has no correct neighbour, this holds in every run, and sets of Echo and Ready senders hold only faulty nodes and true senders |
| BrachaDolev.CountedIsGenuine | code3/App/BrachaDolevHandler.cpp:99-378 | what a correct node counts as the Echo or Ready of a correct node, that node sent, under the same condition; CountingIsGenuineExactly and GenuineExactly say when it is needed |
| BrachaDolev.BounceIsCounted | code3/App/BrachaDolevHandler.cpp:233-280 | under MOD_1 a faulty neighbour of a correct node makes that node's correct neighbours count an Echo it never sent |
| BrachaDolev.CountingIsGenuineExactly | code3/App/BrachaDolevHandler.cpp:99-378 | with a correct broadcaster, counting is genuine in every run iff MOD_1 is off or every correct node lacks faulty neighbours or lacks correct ones |
| BrachaDolev.FaultyBroadcasterForges | code3/App/BrachaDolevHandler.cpp:142-162 | for every `f` and any modifications, a run in which `f` faulty nodes, the broadcaster among them, make a correct node count an Echo that its correct originator never sent |
| BrachaDolev.GenuineExactly | code3/App/BrachaDolevHandler.cpp:99-378 | on a complete graph with `f` faulty and two or more correct nodes, under any modifications, counting is genuine in every run iff nobody is faulty, or the broadcaster is correct and MOD_1 is off |
| BrachaDolev.Integrity | code3/App/BrachaDolevHandler.cpp:99-378 | if a correct broadcaster never starts, no correct node sends an own Echo or Ready or delivers |
| BrachaDolev.EchoQuorumsMeet | code3/App/BrachaDolevHandler.cpp:248-252 | under the condition of NetKeepsAlways two echo quorums at correct nodes share a correct node that did send its Echo |
| BrachaDolev.DeliveryRestsOnCorrectReadys | code3/App/BrachaDolevHandler.cpp:334-348 | under the same condition a delivery rests on true Readys of `f + 1` correct nodes |
| BrachaDolev.ReadyOrigin | code3/App/BrachaDolevHandler.cpp:248-253 | with a correct broadcaster, and without bounces, a correct node's Ready goes back to an echo quorum at a correct node |
| BrachaDolevDelivery.CountedDone | code3/App/BrachaDolevHandler.cpp:238-253 | each count keeps: an Echo of the broadcaster or `f + 1` Echos have led to the own Echo, an echo quorum or `f + 1` Readys to the own Ready, and `2f + 1` Readys to delivery unless the own one is alone |
| BrachaDolevDelivery.LiveAlways | code3/App/BrachaDolevHandler.cpp:186-378 | without modifications these hold in every run, nothing between correct nodes is lost, and undelivered messages are undecided |
| BrachaDolevDelivery.Travel | code3/App/BrachaDolevHandler.cpp:214-280 | in a quiescent state every own message has travelled along every correct route |
| BrachaDolevDelivery.OwnIsCounted | code3/App/BrachaDolevHandler.cpp:214-253 | and every correct node has counted it, given `f + 1` disjoint correct routes |
| BrachaDolevDelivery.Validity | code3/App/BrachaDolevHandler.cpp:35-378 | once a correct broadcaster has started, in a quiescent state all correct nodes have delivered, for `n >= 3f + 1`, `n >= 2`, given `f + 1` disjoint correct routes |
| BrachaDolevDelivery.Totality | code3/App/BrachaDolevHandler.cpp:186-378 | in a quiescent state all correct nodes have delivered or none has, if the broadcaster is correct or has no correct neighbour |
| BrachaDolevTotality.TotalityFails | code3/App/BrachaDolevHandler.cpp:142-162 | otherwise, on every graph with the links it needs: `f` faulty nodes with the broadcaster among them bring about a quiescent state in which one correct node alone has delivered, on Readys that were never sent |
| BrachaDolevTotality.TotalityExactly | code3/App/BrachaDolevHandler.cpp:142-378 | on a complete graph with `f` faulty nodes and `n >= 3f + 1`, totality holds in every run iff the broadcaster is correct |
| BrachaDolevTotality.DeliveriesRestExactly | code3/App/BrachaDolevHandler.cpp:142-378 | and every delivery rests on true Readys of `f + 1` correct nodes iff the broadcaster is correct |
| BrachaDolevTotality.ReadyWithoutEchoes | code3/App/BrachaDolevHandler.cpp:339 | a run in which a faulty broadcaster's Ready makes a correct node send its own although no node has seen an Echo |
| BrachaDolevTotality.ReadyOriginExactly | code3/App/BrachaDolevHandler.cpp:334-348 | on a complete graph, Readys of correct nodes go back to echo quorums in every run iff the broadcaster is correct |
| BrachaDolevDelivery.ValidityExactly | code3/App/BrachaDolevHandler.cpp:35-378 | validity holds iff there are at least two nodes |
| BrachaDolevRest.RunsComeToRest | code3/App/BrachaDolevHandler.cpp:186-378 | under any modifications every run can be continued, by correct nodes alone, until nothing is left to handle |
| BrachaDolevRest.BroadcastsAreDelivered | code3/App/BrachaDolevHandler.cpp:35-378 | every run in which a correct broadcaster has started leads, by steps of correct nodes, to a delivery at all correct nodes |
| BrachaCpa.Peer.FirstMessage | BroadcastSign/src/BrachaCPA.cc:39-55 | the broadcaster validates its own Echo and sends it to all neighbours |
| BrachaCpa.Peer.Validate | BroadcastSign/src/BrachaCPA.cc:153-193 | a message is validated when its originator or `f + 1` neighbours sent it, and forwarded to the neighbours not heard |
| BrachaCpa.Peer.SendOwn | BroadcastSign/src/BrachaCPA.cc:195-223 | the own Ready when due, else the own Echo when due, with all flags and sets |
| BrachaCpa.Peer.ReceiveMessage | BroadcastSign/src/BrachaCPA.cc:80-232 | whole effect of a message, the early return on a validated one included |
| BrachaCpa.ValidatedIsGenuine | BroadcastSign/src/BrachaCPA.cc:121-170 | of `f + 1` neighbours one is correct, so what is validated of a correct originator was sent by it |
| BrachaCpa.ValidationIsGenuine | BroadcastSign/src/BrachaCPA.cc:121-193 | in every reachable state of every graph, a validated Echo or Ready of a correct node was sent by that node |
| BrachaCpa.ReadyOrigin | BroadcastSign/src/BrachaCPA.cc:195-208 | once a correct node has sent its Ready, a correct node has validated an echo quorum |
| BrachaCpa.EchoQuorumsMeet | BroadcastSign/src/BrachaCPA.cc:195 | two echo quorums share a correct node that did send its Echo |
| BrachaCpa.DeliveryRestsOnCorrectReadys | BroadcastSign/src/BrachaCPA.cc:225-231 | with `n >= 3f + 1` a delivery rests on the Readys of `f + 1` correct nodes and on an echo quorum |
| BrachaCpa.Integrity | BroadcastSign/src/BrachaCPA.cc:195-231 | if a correct broadcaster never starts, no correct node sends anything of its own or delivers |
| BrachaCpaHistory.CountsFollowFromCopies | BroadcastSign/src/BrachaCPA.cc:121-232 | in every run and on every graph a node has validated an Echo or Ready iff its originator or `f + 1` neighbours have sent a copy, or it is its own; its own were due; and it has delivered iff a quorum of Readys is validated |
| BrachaCpaDelivery.NodeLiveNext | BroadcastSign/src/BrachaCPA.cc:121-232 | each message keeps: what is certain is counted, more than `f` Readys have led to the own Ready, a quorum of them to delivery, and an echo quorum goes unnoticed only until the broadcaster's Ready |
| BrachaCpaDelivery.LiveAlways | BroadcastSign/src/BrachaCPA.cc:80-232 | in every run what a correct node sent or validated has reached its correct neighbours or is on its way, and the first correct Ready came from a node that had sent its Echo |
| BrachaCpaDelivery.OwnIsCounted | BroadcastSign/src/BrachaCPA.cc:121-193 | in a quiescent state every correct node has counted each own message of a correct node from which the graph can be certified step by step |
| BrachaCpaDelivery.Totality | BroadcastSign/src/BrachaCPA.cc:195-231 | with `n >= 3f + 1` on such graphs, in a quiescent state all correct nodes have delivered or none has, whoever the broadcaster is |
| BrachaCpaDelivery.Validity | BroadcastSign/src/BrachaCPA.cc:39-231 | after a correct node's start all correct nodes have delivered in any quiescent state, if the correct nodes less `f - 1` are an echo quorum |
| BrachaCpaRest.RunsComeToRest | BroadcastSign/src/BrachaCPA.cc:80-232 | every run can be continued, by correct nodes alone, until nothing is left to handle |
| BrachaCpaRest.BroadcastsAreDelivered | BroadcastSign/src/BrachaCPA.cc:39-231 | under the conditions of Validity, such a continuation ends with a delivery at all correct nodes |
| BrachaCpaValidity.BroadcastIsLost | BroadcastSign/src/BrachaCPA.cc:195-223 | a run in which a correct broadcaster starts, everything has been handled and nobody has delivered, because the late nodes skipped their Echo |
| BrachaCpaValidity.ValidityExactly | BroadcastSign/src/BrachaCPA.cc:195-231 | on a complete graph with `f` faulty nodes and `n >= 3f + 1`, validity holds iff `f = 0` or `n - f >= quorum + f - 1` |
| Bracha.Peer.ReceiveMessage | BroadcastSign/src/Bracha.cc:42-113 | the sets, flags and messages after an Echo or Ready are those of the step function |
| BrachaHistory.StateFollowsFromHistory | BroadcastSign/src/Bracha.cc:42-113 | in every run a correct node's state is a function of the messages it has handled: others are in a sender set iff their message of that kind was handled, itself with the first Echo and once it is ready; its Ready, Echo and delivery follow |
| Bracha.Peer.FirstMessage | BroadcastSign/src/Bracha.cc:33-40 | the first message is an Echo for everybody else and changes nothing at home |
| Bracha.NodeKeepsOn | BroadcastSign/src/Bracha.cc:42-113 | each step keeps: Ready sent iff self is in the Ready set; delivered iff that set exceeds `2f`; more than `f` Readys or an echo quorum put self in it |
| Bracha.NetKeepsAlways | BroadcastSign/src/Bracha.cc:42-113 | in every run links are authentic, nothing between correct nodes is lost, and Ready sets hold only faulty nodes and true senders |
| Bracha.Totality | BroadcastSign/src/Bracha.cc:42-113 | with `n >= 3f + 1`, in a quiescent state all correct nodes have delivered or none has |
| Bracha.Validity | BroadcastSign/src/Bracha.cc:33-113 | after a correct node's broadcast every correct node has delivered in any quiescent state, for `n >= 2` |
| Bracha.ValidityExactly | BroadcastSign/src/Bracha.cc:33-113 | validity holds iff there are at least two nodes |
| Bracha.ReadyOrigin | BroadcastSign/src/Bracha.cc:82-97 | a correct node that is ready or has delivered goes back to an echo quorum at a correct node |
| Bracha.RunsComeToRest | BroadcastSign/src/Bracha.cc:82-112 | from every reachable state correct nodes alone reach a state in which nothing is left to handle |
| Bracha.IntegrityExactly | BroadcastSign/src/Bracha.cc:98-112 | with a correct broadcaster, nothing is delivered without its broadcast iff there is no faulty node |
| MaxFlow.Bfs | BroadcastSign/src/BrachaDolev2.cc:242-276 | the search visits exactly the vertices reachable by positive residual edges and leaves parent links that lead back to the source |
| MaxFlow.Bottleneck | BroadcastSign/src/BrachaDolev2.cc:315-320 | walking the parents from the sink ends at the source and yields the smallest residual capacity on the way, INT_MAX at most |
| MaxFlow.Push | BroadcastSign/src/BrachaDolev2.cc:324-329 | residuals stay non-negative, pair sums stay fixed, and every cut loses exactly the amount pushed across it |
| MaxFlow.SearchDecides | BroadcastSign/src/BrachaDolev2.cc:256-275 | a search that has nothing left to explore reports the sink visited iff a residual walk reaches it |
| MaxFlow.BlockedFlowIsMinCut | BroadcastSign/src/BrachaDolev2.cc:309-333 | when the residual matrix has no walk to the sink, the flow is the smallest cut of the entry matrix, and the visited set attests it |
| MaxFlow.Augment | BroadcastSign/src/BrachaDolev2.cc:306-333 | the loop terminates with the flow equal to the minimum cut of the entry matrix over the first `n` layers, residuals non-negative, pair sums fixed, every other cut kept, and nothing changed when there is no flow |
| PathGraph.Peer.CreateGraphIfDoesNotExist | BroadcastSign/src/BrachaDolev2.cc:182-196 | an identifier without a path graph gets a new empty one, and no other graph changes |
| PathGraph.Peer.InsertPathIntoGraph | BroadcastSign/src/BrachaDolev2.cc:198-211 | exactly the layered hops of the path and the self-loops after it are added; a path is reported as too long iff the code would write beyond the graph |
| PathGraph.Peer.CopyGraph | BroadcastSign/src/BrachaDolev2.cc:297-304 | all forward entries become the recorded capacities, all other entries keep what earlier layers left |
| PathGraph.Peer.FordFulkerson | BroadcastSign/src/BrachaDolev2.cc:278-342 | true iff the source is the target, is its direct neighbour, or every cut of some layer's entry matrix has at least `f + 1` edges; the first entry matrix is the recorded graph alone |
| LayeredGraph.BehindNext | BroadcastSign/src/BrachaDolev2.cc:293-334 | what one layer's flow leaves in the matrix: capacity against the layers only, over recorded hops before that layer, never out of what recorded walks reach, and none before a walk leads to the target |
| PathGraph.YesIsSupported | BroadcastSign/src/BrachaDolev2.cc:278-342 | a yes is founded: the source is the target or its recorded neighbour, or a recorded walk leads to the target, more than `f` hops are recorded out of the source, and more than `f` into the target where that walk ends |
| PathGraph.FirstLayerIsExact | BroadcastSign/src/BrachaDolev2.cc:287-338 | at the first layer to which a recorded walk leads, the flow is enough iff every cut of the recorded graph has at least `f + 1` edges |
| PathGraph.StaysWithinReach | BroadcastSign/src/BrachaDolev2.cc:207-210 | the loops at the end of an inserted path keep its end within reach in all later layers |
| PathGraph.EntryCutsAreLarge | BroadcastSign/src/BrachaDolev2.cc:287-304 | leftover reverse capacity only enlarges cuts |
| PathGraph.NeverMisses | BroadcastSign/src/BrachaDolev2.cc:293-341 | true whenever for some layer every cut of the recorded unit-capacity graph has at least `f + 1` edges |
| PathGraph.RoutesMakeCutsLarge | BroadcastSign/src/BrachaDolev2.cc:198-211 | routes of equal length without common intermediate nodes put as many different edges into every cut |
| PathGraph.InsertedPathIsRoute | BroadcastSign/src/BrachaDolev2.cc:198-211 | a simple path that was inserted is a route of the recorded graph, whatever else is recorded |
| PathGraph.EqualRoutesAreFound | BroadcastSign/src/BrachaDolev2.cc:278-342 | `f + 1` such routes always make the test answer true |
| PathGraph.InsertedPathsAreFound | BroadcastSign/src/BrachaDolev2.cc:198-342 | insert `f + 1` simple paths that share only their ends, of equal length except that one may be shorter, and the test answers true, whatever else was inserted |
| SuperpathFilter.Filter.CheckIfSubpathReceived | BroadcastSign/src/BrachaDolev2.cc:365-383 | true iff some kept path is contained in the candidate |
| SuperpathFilter.Filter.InsertPath | BroadcastSign/src/BrachaDolev2.cc:385-397 | the node set of the path is added at the end of the identifier's family, no other family changes |
| SuperpathFilter.Filter.Offer | BroadcastSign/src/BrachaDolev2.cc:365-397 | check then insert keeps the family of all paths offered so far |
| SuperpathFilter.DroppedExactly | BroadcastSign/src/BrachaDolev2.cc:365-397 | after any sequence of paths, the next one is dropped iff some earlier one, kept or not, is contained in it |
| SuperpathFilter.KeptIsMinimal | BroadcastSign/src/BrachaDolev2.cc:365-397 | no kept path is contained in a later one |
| SuperpathFilter.FilterIsLossless | BroadcastSign/src/BrachaDolev2.cc:365-397 | over any sequence of paths the kept family has any number of disjoint node sets iff the full sequence has |
| Graph.MinimumDegree | code3/kpasted.py:84-88 | every node of a k-connected graph has at least `k` neighbours |
| Wheels.GenerateGeneralizedWheel | code3/generateGraphs.py:36-54 | exactly rim, hub and spoke edges; for `n > k >= 2` the nodes `0..n-1` and k-connected |
| Wheels.GeneralizedWheelIsKConnected | code3/generateGraphs.py:36-54 | removing any `k - 1` nodes leaves the generalized wheel connected |
| Wheels.GenerateMultipartiteWheel | code3/generateGraphs.py:56-87 | no graph iff `2k > n` or `k` is odd, a division by zero iff `k = 0` and `n >= 0`; otherwise for positive `k` the nodes `0..n-1` and k-connected, for negative `k` isolated nodes |
| Wheels.MultipartiteWheelIsKConnected | code3/generateGraphs.py:67-85 | a ring of at least four groups of `h` nodes, with the leftover nodes, is `2h`-connected |
| KPastedTree.AddLeafGrowing | code3/kpasted.py:23-26 | an iteration that adds a leaf keeps the tree's shape and adds one node to the final graph |
| KPastedTree.PruneGrowing | code3/kpasted.py:28-37 | pruning keeps enough successors, queues exactly the kept leaves and takes `2k - 3` nodes off the final graph |
| KPastedTree.Sprout | code3/kpasted.py:44-47 | a leaf that sprouts turns from one node of the final graph into `k` and gains new leaves under unused labels |
| KPastedTree.NextToExpand | code3/kpasted.py:39-42 | the next node is the last one queued, of this level or else of the next |
| KPastedTree.Expand | code3/kpasted.py:27-47 | an iteration that prunes and sprouts adds exactly one node to the final graph, and never pops an empty list |
| KPastedTree.GrowOnce | code3/kpasted.py:22-47 | every iteration adds exactly one node to the final graph, by a new leaf below the limit of `3k - 3` and by pruning and sprouting at it |
| KPastedTree.GrowTree | code3/kpasted.py:8-47 | for `n >= 2k >= 4` the growth ends with a well-formed tree whose k copies have exactly `n` nodes; all inner nodes but one have exactly `k` tree neighbours, that one at most `3k - 3`, and leaf depths differ by at most one |
| KPastedTree.GrowSingle | code3/kpasted.py:22-47 | with `k = 1` the growth pops an empty list iff `n >= 4`, and otherwise leaves the one edge |
| KPastedTree.PruneResting | code3/kpasted.py:28-37 | pruning leaves every inner node with exactly `k` tree neighbours and every leaf waiting, in this level or the next |
| KPasted.PasteNodes | code3/kpasted.py:50-82 | leaves are shared, inner nodes get `k` labels, no two labels collide, the graph has as many nodes as the tree promises |
| KPasted.PasteEdges | code3/kpasted.py:84-88 | the edges are exactly the tree edges, once per copy |
| KPasted.SurvivorReachesLeaf | code3/kpasted.py:22-88 | after the loss of fewer than `k` nodes every surviving node still reaches a surviving shared leaf |
| KPasted.CleanCopy | code3/kpasted.py:64-76 | fewer than `k` losses leave one tree copy without a lost inner node |
| KPasted.StaysConnected | code3/kpasted.py:22-88 | removing fewer than `k` nodes leaves the k-pasted graph connected |
| KPasted.PastedIsKConnected | code3/kpasted.py:22-88 | k-pasted graphs are k-connected |
| KPasted.PastedDegree | code3/kpasted.py:22-88 | every node has at least `k` neighbours |
| KPasted.PastedIsNearlyRegular | code3/kpasted.py:22-88 | all nodes but at most `k` have exactly `k` neighbours, and those at most `3k - 3` |
| KPasted.GenerateKPasted | code3/kpasted.py:4-104 | its error iff `n < 2k`, no root iff `k` is not positive, an empty list iff `k = 1` and `n >= 4`; otherwise k-connected, and for `k >= 2` `k` pasted copies of one grown tree, renumbered to `0..n-1`, with at most `k` nodes that have more than `k` and none that has more than `3k - 3` neighbours |
| Relabelling.NumberNodes | code3/kpasted.py:92-96 | the nodes in the order in which they come, each of them once |
| Relabelling.RelabelNodes | code3/kpasted.py:97 | the same graph on the numbers `0..n-1` |
| Relabelling.RenamedIsKConnected | code3/kpasted.py:92-97 | renumbering keeps the graph k-connected |
| Routes.RobustIsServed | code3/generateGraphs.py:28-34 | if the correct nodes stay connected when any `f` more are lost, any two of them have `f + 1` disjoint routes of correct nodes, directly linked or not |
| Routes.ConnectedExactly | code3/generateGraphs.py:33 | every two correct nodes have `f + 1` disjoint correct routes, whichever `f` nodes are faulty, iff the graph is (2f + 1)-connected |
| ConnectedNetworks.TopologyIsLinked | code3/App/Handler.cpp:58-82 | nodes that read their neighbours from one list of pairs have known neighbours, no link to themselves and links that work both ways |
| ConnectedNetworks.DolevReachesEverybody | code3/App/DolevHandler.cpp:136-231 | on a (2f + 1)-connected graph, with all modifications on, every broadcast leads to a delivery at all correct nodes |
| ConnectedNetworks.DolevOnGeneratedGraphs | code3/generateGraphs.py:36-93 | so on wheels, multipartite wheels and k-pasted graphs with `k >= 2f + 1` |
| ConnectedNetworks.BrachaDolevReachesEverybody | code3/App/BrachaDolevHandler.cpp:35-378 | on a (2f + 1)-connected graph with `n >= 3f + 1` every start of a correct broadcaster leads to a delivery at all correct nodes, as deployed |
| ConnectedNetworks.BrachaDolevOnGeneratedGraphs | code3/generateGraphs.py:36-93 | so on wheels, multipartite wheels and k-pasted graphs with `k >= 2f + 1` |

## Left out

- DisjointSearch.MsgCanBeDelivered: the search as the TODO intends it; the one that the code has is FullSearch.MsgCanBeDelivered.
- Dissemination.Disseminator.Disseminate: says nothing about the message after a read beyond a list.
- DolevHandler.Node.InitDolevBroadcast: the unset originator field is a parameter; payload bytes and the content of `val` are not modelled, an identifier stands for one content.
- DolevNetwork.NoForgeryExactly: speaks of one identifier of a correct source; path ids are in range and link senders are the true ones.
- BrachaDolev.EchoQuorumsMeet: under the condition of NetKeepsAlways, without which counted Echos need not have been sent.
- BrachaDolevDelivery.Totality: with a faulty broadcaster that has a correct neighbour the exact condition is given for complete graphs only.
- BrachaDolevDelivery.Validity: for the deployed setting, all modifications off.
- BrachaCpaDelivery.Validity: the condition on `n` is shown to be needed on complete graphs only.
- BrachaCpa.Peer.ReceiveMessage: one broadcast with a fixed broadcaster, OPTIM_SENDTOECHO off (its default in BroadcastSign/src/Peer.h:95), no size fields.
- Bracha.Peer.ReceiveMessage: one broadcast with a fixed broadcaster, since the flags are not kept per broadcast; delivery counters and times are left out.
- Bracha.Validity: asks for `n >= 2`; ValidityExactly shows that this is needed.
- MaxFlow.Augment: residuals and the flow are unbounded integers; INT_MAX is modelled only as the bottleneck's starting value.
- PathGraph.YesIsSupported: says no more than that, because capacity left behind by earlier layers can add to a later flow, and flow over layered edges does not imply that paths are node-disjoint.
- SuperpathFilter.FilterIsLossless: for paths with some node outside the ends that all paths share (with no such ends: non-empty paths); the bitset width is not modelled.
- KPasted.GenerateKPasted: node types in the result and the walk returned for plotting are not part of this model; the renumbering takes the nodes in any order.
- salticidae and OMNeT++: sockets, event loops, timers and encodings are replaced by a bag of messages with authenticated senders.
- Liveness under fairness: replaced by theorems about quiescent states.
- OptBrachaDolevHandler and the code3 CPA handlers: their bodies are not part of this model.
- READY_ECHO and ECHO_ECHO merging, and the receive handlers of BrachaDolev2.cc: many options around the flow and filter functions modelled here.
- Dolev.cc and BrachaDolev.cc: the same search and flow under disabled defines.
- kdiamond.py, random regular graphs and the disjoint-path scripts: another growth scheme, and calls into networkx.
- Message encodings, counters, statistics, plotting and deployment scripts: no hard property.
