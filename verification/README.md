# CNI-Genie: verified models of its three decision cores

This project models, in Dafny, the parts of CNI-Genie that decide something, and
proves what those decisions amount to.

**The network-policy controller.** It turns Kubernetes network policies over
logical networks into rules of the iptables filter table, in three layers: the
base chain leads packets of a network's subnet to the network's chain, that
chain jumps to the chains of the policies that select the network and then
rejects, and a policy's chain accepts the subnets of its peers. The controller
only sees the table as text: it lists a chain, searches lines for names, and
deletes by line number while the chain shrinks under its listing.

- `Text`, `Sequences`, `Options`: the string and sequence operations everything
  rests on.
- `Rules`, `Tables`: chain names, rules, their listing lines, and what each
  iptables command and each wrapper operation does to a table.
- `IpTablesWrapper`, `Controller`: the wrapper and the controller as classes that
  edit the table in place, each method proved against a function of `Tables` or
  `Handlers`.
- `Invariant`, `Preservation`, `Pairing`, `Removal`, `Safety`: the shape that
  every handler keeps, and why.
- `Verdict`: what the rules mean for a packet.
- `PolicyListing`, `Membership`: which policies the list for a network speaks of,
  told from the decoded entries of their annotations.
- `Frames`, `Effects`, `Populating`, `Exactness`, `Retirement`, `Namespaces`: what
  each handler achieves, exactly, and what it leaves alone.
- `Outcomes`, `PolicyOutcomes`: the table after each handler, told from the
  annotations' entries and the known subnets alone.
- `Workers`, `HandlerSteps`, `Runs`: several workers behind one work queue and one
  mutex, the handlers broken into the steps they take while they hold it, and the
  invariant at every one of these steps, over crashes and restarts.
- `Commands`, `CommandTraces`, `Crashes`: the handlers as the iptables commands they
  issue, and what survives a crash between any two of them, whatever the subnets.
- `Enforcement`: from when on a network's packets are decided on after a restart.
- `Instances`, `Counterexamples`: a concrete node on which the hypotheses of the
  exactness results hold together, and concrete inputs on which the code falls
  short.
- `Listings`: one node's table as iptables prints it, word by word.

**The pod planner** (`PodNetwork`, `Plans`, `PodController`, `ConfFiles`,
`PodFiles`): which plugin is asked for which interface of a pod, how a choice
sticks to the pod's annotations, how addresses are recorded, and which
configuration file serves a plugin, so that DEL undoes what ADD did, as the
section "Parameters" of the CNI Specification 0.3.1 asks.

**The usage-based choice** (`NetworkUsage`): downlink usage from counter
snapshots and the sort that picks the least loaded solution.

## How the environment is represented

- The informer caches may change between any two reads. The n-th read of a run
  sees the n-th `World` of a `Feed`. Safety, enforcement, deletion and what ends up
  in network chains hold for every feed; what ends up in policy chains after an ADD
  holds for feeds that hold still (`Steady`). Go's random map order is part of the
  world (`ValidOrder`: it lists each key once).
- The work queue is that of client-go, with its `dirty` and `processing` sets: a
  key that is added again while it waits is dropped, and one that is added while it
  is handled is queued again afterwards.
- A crash may hit between any two steps of a handler, where a step is one selector,
  one listed policy, one base line or one named network (`Runs`), and also between
  any two iptables commands (`Crashes`, with the weaker invariant that holds there).
- md5, the JSON decoders, address matching, plugin results and API answers are
  parameters: function values that stand for any function of their type.
- An iptables command either succeeds or fails without effect, with the exit
  status that the wrapper looks at. A rule is refused (status 2) if its target
  does not exist or its subnet is malformed; a missing chain gives status 1.
  Flushing and creating a chain always succeed. Malformed subnets are therefore
  an error path of the model, not an assumption.
- A well-formed subnet is an IPv4 prefix as iptables prints it back (section 3.1 of
  RFC 4632, host bits clear), so that a rule found in a listing reads as it was
  added; `Rules.Cidr` defines it exactly.
- Blanks are those of Go's `strings.TrimSpace` up to U+00FF; the blanks beyond
  Latin-1 count as letters here (`Text.IsSpace`).
- A failed write of a default configuration file leaves the directory as it was.

Hypotheses that the code does not establish are named predicates: `FixedSubnets`
(networks that share a chain name keep one subnet over a run, which covers both
name collisions and subnet changes), `SubstringFree` (no subnet's text inside
another's; needed where rules are deleted by subnet text), `DistinctChains`,
`PlainPolicy`, `Literal` and `RoundTrips`.

Where the code falls short of its evident intent, the model follows the code, an
input is named, and the exact condition is proved:

- A network chain has a selecting policy's jump iff that policy is the last one of
  the listing and the network's subnet is well formed
  (`Exactness.JumpSurvivesIffLast`; inputs `Counterexamples.TwoSelectorsLoseAJump`
  and `Counterexamples.NoSubnetNoJump`, whose ADD reports success all the same).
- Removing a network chain works iff at most two base rules lead to it
  (`Removal.NetworkRemovalSucceedsIff`; input
  `Counterexamples.MovedNetworkCannotBeRemoved`, a network that comes back with
  another subnet).
- Deleting a network from a peer's chain takes out just its own rules iff both stand
  before every other rule whose line holds the subnet's text
  (`Pairing.DropTwoIsWithoutSubnetIff`; inputs `Counterexamples.LookalikeIsDeleted`,
  10.0.0.0/8 inside 110.0.0.0/8, and `Counterexamples.NoSubnetBreaksPair`).
- The UPDATE of a logical network never replaces a rule, because it deletes by rule
  number 0 (`Handlers.ReplacesNothing`, `Retirement.NetworkUpdateReplacesNothing`;
  input `Counterexamples.UpdateIgnoresNewSubnet`).
- A policy UPDATE with selectors takes no jump away
  (`Exactness.UpdateKeepsStaleJumps`; input
  `Counterexamples.DroppedSelectorBlocksDelete`), and one whose annotation does not
  decode changes nothing (`Retirement.PolicyUpdateSucceedsIff`).
- A policy DELETE works iff the annotation it is handed decodes and names every
  network that jumps to the policy (`Retirement.PolicyDeleteExact`; inputs
  `Counterexamples.DroppedSelectorBlocksDelete` and
  `Counterexamples.EmptyAnnotationBlocksDelete`).
- The verdict on a packet is independent of the order of the base chain, on which Go's
  map order has a say, iff the networks that claim the packet decide alike on it
  (`Verdict.BaseOrderIsIrrelevant`, `Verdict.DisputedDependsOnOrder`; input
  `Counterexamples.CrossingDependsOnOrder`).
- After a restart a network whose chain survived is served again only by its own ADD
  (`Enforcement.UnservedUntilOwnAdd`; input
  `Counterexamples.RestartLeavesUnserved`), and by that iff a policy selects it and
  its subnet is well formed (`Enforcement.OwnAddEnforces`).
- The work queue does not count: once everything is at rest a key has been handled
  exactly as often as it was added iff no addition found it dirty
  (`Workers.EveryKeyIsHandled`; input `Workers.RepeatedAddCollapses`). What it does
  guarantee is that every key is handled once more after it was last added.
- A crash between two commands can leave a network chain without its REJECT
  (`Counterexamples.CrashLosesReject`); the layers survive
  (`Crashes.EveryInstantIsLayered`), and the network's own ADD repairs the chain
  (`Crashes.OwnAddRepairs`).
- After the ADDs of all plugins of a pod, DEL of a plugin selects the file that its
  ADD used iff that file is no conflist and no default file written by a later ADD
  contains the plugin's name and sorts before it
  (`ConfFiles.DeleteSelectsWhatAddUsed`; input `ConfFiles.LaterAddCapturesDelete`,
  a pod with `cni: vlan,macvlan`).
- Recorded usage measures a solution's last-listed interface iff that interface was
  listed before (`NetworkUsage.MeasuredIffListedBefore`; input
  `NetworkUsage.NewInterfaceIsMischarged`).

The documentation under `docs/network-policy` calls the policy engine not
implemented; the model follows the code that implements it.

## Model

| member | source | states |
|---|---|---|
| Rules.ChainName | controllers/network-policy-controller/iptables/iptables.go:41-44 | a generated name is the 6-character prefix and 20 hexadecimal digits, 26 characters in all |
| Rules.NamedForNamespace | controllers/network-policy-controller/iptables/iptables.go:41-44 | a policy's chain name is `GnPlc-`, a network's `GnNtk-`, and the first twenty digits of the digest of its name with its namespace; two have one name iff those digits agree |
| Namespaces.OtherNamespacesKept | controllers/network-policy-controller/networkpolicycontroller.go:642-686 | for every feed, handling an event of one namespace leaves alone every policy chain that is neither the event's own nor that of a policy listed for the namespace |
| Namespaces.SameNameElsewhereKept | controllers/network-policy-controller/networkpolicycontroller.go:431-437 | an event of a policy leaves alone the chain of a same-named policy in another namespace, when the digests' digits differ |
| Listings.ListedAs | controllers/network-policy-controller/iptables/iptables.go:102-141 | one node's base, network and policy chain as iptables prints them, word by word |
| Rules.MentionsName | controllers/network-policy-controller/iptables/iptables.go:152-156 | a listed rule's line contains another chain's name iff the rule jumps to that chain |
| Rules.MentionsPrefix | controllers/network-policy-controller/iptables/iptables.go:202-213 | a line contains a kind's prefix iff the rule jumps to a chain of that kind |
| Rules.SplitLineRecoversTarget | controllers/network-policy-controller/networkpolicycontroller.go:406-414 | splitting a base rule's line on blanks gives its words back, and only the jump target holds the network prefix |
| Rules.MentionsSubnet | controllers/network-policy-controller/networkpolicycontroller.go:621-624 | in a policy chain a line contains a subnet's text iff the rule's own subnet text does; the header never does |
| Text.ContainsJoin | controllers/network-policy-controller/iptables/iptables.go:153 | a blank-free text occurs in a line iff it occurs in one of its words |
| Text.SplitIsFaithful | controllers/network-policy-controller/networkpolicycontroller.go:304 | splitting and joining with the separator gives the text back, and no part contains the separator |
| Text.AtoiItoa | genie/genie-controller.go:215-217 | reading a printed number gives the number back |
| Text.AtoiMeans | genie/genie-controller.go:215-217 | reading a printed integer gives it back, a plus sign is taken, and anything else reads as 0 |
| Text.BlanksAre | controllers/network-policy-controller/networkpolicycontroller.go:313-314 | the blanks of Latin-1 that trimming takes off, by their codes |
| Text.TrimMeans | controllers/network-policy-controller/networkpolicycontroller.go:313-314 | trimming takes the blanks off both ends, all of them, and nothing else |
| IpTablesWrapper.IpTables.List | vendor/github.com/coreos/go-iptables/iptables/iptables.go:116-130 | a header line followed by the rules in order, so list index is rule number; a missing chain fails with status 1 |
| IpTablesWrapper.IpTables.Exists | vendor/github.com/coreos/go-iptables/iptables/iptables.go:65-82 | found iff the command line loads and the chain holds the rule; an unloadable rule is an error |
| IpTablesWrapper.IpTables.Append | vendor/github.com/coreos/go-iptables/iptables/iptables.go:96-108 | AppendUnique: appended only if absent, refused if chain, target or subnet is bad |
| IpTablesWrapper.IpTables.Delete | vendor/github.com/coreos/go-iptables/iptables/iptables.go:110-114 | removes the rule with that number, or fails without change outside 1..len |
| IpTablesWrapper.IpTables.DeleteEmptyChain | vendor/github.com/coreos/go-iptables/iptables/iptables.go:158-162 | deletes an empty chain that no rule leads to, else fails without change |
| IpTablesWrapper.IpTables.CreateBaseChain | controllers/network-policy-controller/iptables/iptables.go:47-73 | flushes the base chain and makes FORWARD jump to it, once |
| IpTablesWrapper.IpTables.ExistsChain | controllers/network-policy-controller/iptables/iptables.go:76-87 | true iff the chain is in the table |
| IpTablesWrapper.IpTables.AddPolicyChain | controllers/network-policy-controller/iptables/iptables.go:90-99 | an empty chain under the policy's generated name |
| IpTablesWrapper.IpTables.AddNetworkChain | controllers/network-policy-controller/iptables/iptables.go:102-141 | the chain flushed to a REJECT and the two base rules appended if absent; an error and no name if the subnet is malformed |
| IpTablesWrapper.IpTables.DeleteHits | controllers/network-policy-controller/iptables/iptables.go:151-167 | the loop with `pos` and `cnt` does what the recursive sweep of the listing says |
| IpTablesWrapper.SweepDropsTwo | controllers/network-policy-controller/iptables/iptables.go:151-167 | deleting by adjusted numbers from one listing removes exactly the first two rules that mention the text and keeps the rest in order |
| IpTablesWrapper.IpTables.DeleteFirstTwo | controllers/network-policy-controller/networkpolicycontroller.go:615-635 | the same for any chain, with the missing chain as an error |
| IpTablesWrapper.IpTables.DeleteNetworkChain | controllers/network-policy-controller/iptables/iptables.go:145-174 | first two base rules that mention the chain removed, then the chain flushed and deleted unless still referenced |
| IpTablesWrapper.IpTables.InsertRule | controllers/network-policy-controller/iptables/iptables.go:177-190 | at the given position of the chain unless there; status 1 is swallowed, an unloadable rule or a position below 1 is an error |
| Tables.InsertMeans | controllers/network-policy-controller/iptables/iptables.go:177-190 | an inserted rule stands at its position, between the rules that were before and behind it |
| Tables.DeleteMeans | vendor/github.com/coreos/go-iptables/iptables/iptables.go:111-114 | a rule deleted by its number is gone, those behind it move up, and no other chain changes |
| IpTablesWrapper.IpTables.DeleteMatching | controllers/network-policy-controller/iptables/iptables.go:200-214 | deletions by unadjusted numbers of one listing, and whether a policy jump is left |
| IpTablesWrapper.IpTables.DeleteNetworkChainRule | controllers/network-policy-controller/iptables/iptables.go:194-223 | those deletions, then the whole chain if no other policy jump is left |
| IpTablesWrapper.IpTables.DeleteIptableChain | controllers/network-policy-controller/iptables/iptables.go:226-237 | flush, then delete; a referenced chain stays behind empty |
| IpTablesWrapper.IpTables.InsertPeerRule | controllers/network-policy-controller/networkpolicycontroller.go:500-512 | accept rules for the subnet as source and as destination, each once |
| Invariant.RemoveNetworkExact | controllers/network-policy-controller/iptables/iptables.go:145-174 | on an invariant table removal succeeds, takes the chain and exactly its base rules, keeps the invariant, and a second call is a no-op |
| Invariant.StaleDeletesIsWithout | controllers/network-policy-controller/iptables/iptables.go:201-208 | with distinct jumps the unadjusted numbers still remove exactly the one jump |
| Invariant.RemoveJumpExact | controllers/network-policy-controller/iptables/iptables.go:194-223 | removes exactly the jump to the policy, and the network chain with its base rules iff no other policy jump remains |
| Removal.NetworkRemovalSucceedsIff | controllers/network-policy-controller/iptables/iptables.go:145-174 | removal succeeds iff at most two base rules lead to the chain; otherwise the chain is left without its REJECT |
| Preservation.AddNetworkExact | controllers/network-policy-controller/iptables/iptables.go:102-141 | exactly which chain and base rules there are afterwards, for well-formed and malformed subnets, and the invariant is kept |
| Preservation.FlushDeletePolicyExact | controllers/network-policy-controller/iptables/iptables.go:226-237 | a policy chain is gone iff nobody jumps to it, else empty with an error; the invariant is kept |
| Preservation.RestartEstablishesInv | controllers/network-policy-controller/networkpolicycontroller.go:214-224 | starting or restarting establishes the invariant with an empty base chain, puts the jump to it first in FORWARD unless there, and leaves all other chains alone |
| Pairing.DropTwoIsWithoutSubnet | controllers/network-policy-controller/networkpolicycontroller.go:615-635 | where no subnet's text is inside another's, deleting by a subnet's text removes exactly that subnet's two rules, keeps the others in order and in pairs |
| Pairing.DropTwoTakesFirstHits | controllers/network-policy-controller/networkpolicycontroller.go:615-635 | without that hypothesis, the first two rules whose subnet's text contains the deleted one's go |
| Pairing.DropTwoIsWithoutSubnetIff | controllers/network-policy-controller/networkpolicycontroller.go:615-635 | for every text: just the subnet's own rules go iff both stand before every other rule whose line holds the text |
| Pairing.EmptyTextDropsFirst | controllers/network-policy-controller/networkpolicycontroller.go:615-635 | deleting a network without a subnet takes out the first rule of the chain |
| Runs.EveryRunIsSafe | controllers/network-policy-controller/networkpolicycontroller.go:214-260 | after every sequence of starts, handled keys and crashes in the middle of a handler, for every feed: the three-layer invariant, foreign chains untouched, FORWARD still jumping to the base chain, and peer rules in pairs; also at every step of the next handler |
| Runs.StepsKeep | controllers/network-policy-controller/networkpolicycontroller.go:311-640 | every single step of each of the six handlers keeps the invariant, the foreign chains and the pairs |
| Runs.PartlyIsAll | controllers/network-policy-controller/networkpolicycontroller.go:642-686 | a handler that gets past its last step has done what the handler does |
| Runs.EveryInstantIsSafe | controllers/network-policy-controller/networkpolicycontroller.go:231-260 | at every instant of every interleaving of workers, also while one is inside a handler, the table is invariant |
| Safety.HandleSafe | controllers/network-policy-controller/networkpolicycontroller.go:642-686 | each handler keeps the invariant, the foreign chains and the pairs, whatever the caches show at each read |
| Safety.SweepIsSweepRules | controllers/network-policy-controller/networkpolicycontroller.go:400-425 | reading chain names off the base chain's lines visits exactly the rules' targets |
| Safety.DeleteInfosSafe | controllers/network-policy-controller/networkpolicycontroller.go:604-638 | deleting a logical network never fails on an invariant table |
| Verdict.GraphMeaning | controllers/network-policy-controller/iptables/iptables.go:102-141 | evaluation needs at most two nested jumps; the first matching base rule's network decides, and accepts iff one of its policies has a matching peer rule |
| Verdict.OrderIsIrrelevant | controllers/network-policy-controller/networkpolicycontroller.go:500-512 | reordering jumps or peer rules changes no packet's verdict |
| Verdict.BaseOrderIsIrrelevant | controllers/network-policy-controller/iptables/iptables.go:119-138 | nor does reordering the base chain, for packets on which all networks that claim them decide alike |
| Verdict.DisputedDependsOnOrder | controllers/network-policy-controller/iptables/iptables.go:119-138 | any other packet meets another verdict in some order of the base chain |
| Controller.SelectorsOf | controllers/network-policy-controller/networkpolicycontroller.go:293-309 | the loop computes the merged selector map |
| PolicyListing.SelectorsMerge | controllers/network-policy-controller/networkpolicycontroller.go:302-306 | a selector is present iff some entry has it, with the split peers of all such entries in order |
| Controller.NetworkPolicyController.LogicalNetworksFromAnnotation | controllers/network-policy-controller/networkpolicycontroller.go:293-309 | the selector map of the decoded annotation, or nothing if it does not decode |
| Controller.NetworkPolicyController.ReportPolicy | controllers/network-policy-controller/networkpolicycontroller.go:466-495 | the entries one policy contributes to the list |
| Controller.NetworkPolicyController.ListNetworkPolicies | controllers/network-policy-controller/networkpolicycontroller.go:457-498 | the concatenated entries of the namespace's policies |
| Membership.ListedIff | controllers/network-policy-controller/networkpolicycontroller.go:457-498 | the list holds exactly each policy of the namespace with an entry that selects the name, with its networks, and each that has it as a trimmed peer only, without; of these, the ones whose annotation holds the name as a text |
| Membership.ConcernedIff | controllers/network-policy-controller/networkpolicycontroller.go:473 | on literal annotations the text is no further condition |
| Membership.ListedTimes | controllers/network-policy-controller/networkpolicycontroller.go:475-486 | how often: once per selecting policy, and once per occurrence among the peers of a peer-only one |
| Membership.HitsAreOccurrences | controllers/network-policy-controller/networkpolicycontroller.go:477-483 | the occurrences counted over the merged map are those in the decoded entries |
| PolicyListing.FilterDropsNothing | controllers/network-policy-controller/networkpolicycontroller.go:473 | if annotations are literal, the substring pre-filter changes nothing |
| PolicyListing.FilterPassesOver | controllers/network-policy-controller/networkpolicycontroller.go:473 | on any annotation, the pre-filter passes over a policy iff the name is not in the annotation's text |
| PolicyListing.ReportWithoutName | controllers/network-policy-controller/networkpolicycontroller.go:468-492 | without a network name every annotated policy is listed once, with its networks if they decode |
| PolicyListing.ReportMeaning | controllers/network-policy-controller/networkpolicycontroller.go:472-487 | a selecting policy is reported once with its networks, another once per occurrence among its trimmed peers, and not at all iff the name is no peer |
| PolicyListing.ReportsAnyOrder | controllers/network-policy-controller/networkpolicycontroller.go:477-483 | the list does not depend on the order in which the maps are walked |
| Controller.NetworkPolicyController.InsertPeers | controllers/network-policy-controller/networkpolicycontroller.go:331-341 | each resolvable peer's pair of rules, one lookup per peer |
| Controller.NetworkPolicyController.ApplyPolicy | controllers/network-policy-controller/networkpolicycontroller.go:527-557 | one listed policy: chain refilled, jump and peers, or accept rules for a peer |
| Controller.NetworkPolicyController.HandleLogicalNetworkAdd | controllers/network-policy-controller/networkpolicycontroller.go:514-561 | the listed policies applied in order, stopping at the first refused jump |
| Controller.NetworkPolicyController.ReplaceRules | controllers/network-policy-controller/networkpolicycontroller.go:575-592 | the loop deletes, inserts and counts as the recursive replacement says |
| Handlers.ReplacesNothing | controllers/network-policy-controller/networkpolicycontroller.go:577-592 | from a fresh counter no rule is ever replaced, and the loop fails iff a listed line mentions the chain |
| Handlers.ReplacesOnce | controllers/network-policy-controller/networkpolicycontroller.go:577-592 | from a counter of 1 the loop would replace the first rule by one at the line's position, and stop |
| Controller.NetworkPolicyController.HandleLogicalNetworkUpdate | controllers/network-policy-controller/networkpolicycontroller.go:563-596 | network looked up, base chain listed, listed rules replaced; an error if either is missing |
| Controller.NetworkPolicyController.HandleLogicalNetworkDelete | controllers/network-policy-controller/networkpolicycontroller.go:598-640 | each listed policy retired in order, stopping at a failed chain removal |
| Controller.NetworkPolicyController.PopulateSelector | controllers/network-policy-controller/networkpolicycontroller.go:313-342 | one selector: network added or jump inserted, then its peers unless that failed |
| Controller.NetworkPolicyController.PopulatePolicyChain | controllers/network-policy-controller/networkpolicycontroller.go:311-346 | all selectors in the map's enumeration order |
| Controller.NetworkPolicyController.HandleNetworkPolicyAdd | controllers/network-policy-controller/networkpolicycontroller.go:348-376 | policy found and decoded, its chain reset and populated |
| Controller.NetworkPolicyController.SweepListing | controllers/network-policy-controller/networkpolicycontroller.go:405-425 | each network chain met for the first time in the listing loses its jump |
| Controller.NetworkPolicyController.HandleNetworkPolicyUpdate | controllers/network-policy-controller/networkpolicycontroller.go:378-429 | chain reset, then populated or, without selectors, swept out of the network chains |
| Controller.NetworkPolicyController.HandleNetworkPolicyDelete | controllers/network-policy-controller/networkpolicycontroller.go:431-453 | jumps removed from the named networks' chains, then the policy's chain deleted |
| Controller.NetworkPolicyController.SyncHandler | controllers/network-policy-controller/networkpolicycontroller.go:642-686 | the key is decoded and dispatched to the handler of its kind and action |
| Handlers.KeyRoundTrip | controllers/network-policy-controller/networkpolicycontroller.go:158-212 | a queued key reaches the handler it was queued for, with the same arguments; an update also carries the previous annotation |
| Handlers.PolicyKeyLeadsTo | controllers/network-policy-controller/networkpolicycontroller.go:655-668 | a policy's key leads to the add, update or delete handler by its action, spelled out, and to none otherwise |
| Handlers.NetworkKeyLeadsTo | controllers/network-policy-controller/networkpolicycontroller.go:669-682 | a logical network's key likewise |
| Handlers.OtherKeys | controllers/network-policy-controller/networkpolicycontroller.go:642-686 | a key that does not decode fails, one of another kind succeeds, and neither changes anything |
| Effects.AddInfosEffect | controllers/network-policy-controller/networkpolicycontroller.go:526-558 | with steady caches, exactly what the listed policies do to network chain, base chain and policy chains, from the table before |
| Populating.PopulateEffect | controllers/network-policy-controller/networkpolicycontroller.go:311-346 | the table after populating is described by the set of selectors and the table before |
| Populating.PopulateInAnyOrder | controllers/network-policy-controller/networkpolicycontroller.go:311-346 | any two enumeration orders give the same chains, equal network chains, and the same rule sets in base and policy chains |
| Exactness.PopulateGivesVerdict | controllers/network-policy-controller/networkpolicycontroller.go:311-346 | two enumeration orders give the same verdict on every packet on which the networks that claim it decide alike |
| Frames.AddInfosRefill | controllers/network-policy-controller/networkpolicycontroller.go:526-558 | for every feed and every table with a base chain, what the listed policies leave in the network's chain and in the base chain, for well-formed and malformed subnets, and when they fail |
| Frames.PopulateJumps | controllers/network-policy-controller/networkpolicycontroller.go:311-346 | for every table and feed, populating puts the jump in front of exactly the selected network chains that lack it, and changes nothing else in network chains |
| Frames.PopulateServesNew | controllers/network-policy-controller/networkpolicycontroller.go:323-329 | for every table and feed, populating brings base rules only for networks that had no chain |
| Exactness.NetworkAddKeepsLastSelector | controllers/network-policy-controller/networkpolicycontroller.go:514-561 | for every feed and every table with a base chain: succeeds iff every selecting policy has a chain; the network chain is then the jump to the last selecting policy and REJECT, or REJECT only with a malformed subnet or after a failure; both base rules are there iff they were before or some policy selects the network and the subnet is well formed |
| Exactness.JumpSurvivesIffLast | controllers/network-policy-controller/networkpolicycontroller.go:527-536 | for every feed and every table with a base chain, a selecting policy's jump is in the chain iff its chain is the last selecting policy's and the subnet is well formed |
| Outcomes.NetworkAddServes | controllers/network-policy-controller/networkpolicycontroller.go:514-561 | for every feed with literal annotations: an ADD succeeds iff every policy of the namespace with an entry that selects the network has a chain; the network chain then jumps to the last such policy and rejects, and the base chain gains exactly its two rules if the subnet is well formed |
| Outcomes.NetworkAddLetsIn | controllers/network-policy-controller/networkpolicycontroller.go:526-558 | with steady caches each policy chain gains exactly the two rules of every subnet its policy lets in: the known peers of a selecting policy, the network's own subnet for one that has it as a peer only; all other chains stay |
| Outcomes.NetworkAddReachesPeers | controllers/network-policy-controller/networkpolicycontroller.go:551-555 | after a successful ADD the chain of every policy that has the network as a peer only accepts its subnet, both ways |
| Exactness.PolicyAddExact | controllers/network-policy-controller/networkpolicycontroller.go:348-376 | every reachable selected network jumps to the policy, and to it alone if its chain is new; the policy's chain holds exactly the pairs of the known peers of reachable selectors |
| PolicyOutcomes.FindPolicyMeans | controllers/network-policy-controller/networkpolicycontroller.go:348-353 | the policy found has the name and is in the namespace; none is found iff there is none |
| PolicyOutcomes.PolicyAddChains | controllers/network-policy-controller/networkpolicycontroller.go:311-376 | which chains there are after a policy ADD, and what every network chain holds |
| PolicyOutcomes.PolicyAddBase | controllers/network-policy-controller/networkpolicycontroller.go:311-376 | the base chain gains exactly the two rules of each selected network whose chain was created |
| PolicyOutcomes.PolicyAddAccepts | controllers/network-policy-controller/networkpolicycontroller.go:331-341 | the policy's chain holds exactly the rules of the peers its entries list under reachable selectors |
| PolicyOutcomes.PolicyAddElsewhere | controllers/network-policy-controller/networkpolicycontroller.go:311-346 | the other policies' chains gain exactly what the ADD of the created networks lets in |
| PolicyOutcomes.PolicyUpdateAccepts | controllers/network-policy-controller/networkpolicycontroller.go:378-398 | after an update with selectors the policy's chain holds exactly the peers of the new annotation, and every reachable selected network jumps to it |
| Exactness.PolicyAddAdmitsPeers | controllers/network-policy-controller/networkpolicycontroller.go:311-376 | afterwards a reachable network that decides on a packet accepts it iff it comes from or goes to a known peer of a reachable selector or another policy of the network admits it, and rejects it otherwise; no other policy is involved if the chain is new |
| Exactness.UpdateKeepsStaleJumps | controllers/network-policy-controller/networkpolicycontroller.go:378-398 | for every table and feed, an update with selectors leaves every network chain as it was, but for the jump put in front where one of the annotation's selectors stands for it and the jump was missing |
| Retirement.EmptyUpdateSweeps | controllers/network-policy-controller/networkpolicycontroller.go:399-426 | although the base chain shrinks under the listing, no base-referenced network chain jumps to the policy afterwards, and the exact table is given |
| Retirement.ReleasedMeans | controllers/network-policy-controller/iptables/iptables.go:194-223 | released chains survive iff they jump to another policy, and then keep everything else in order; the base chain keeps exactly the rules to survivors |
| Retirement.PolicyDeleteExact | controllers/network-policy-controller/networkpolicycontroller.go:431-453 | for every annotation: success iff it decodes and names all jumping networks; then chain and mentions are gone; if it does not decode nothing changes, if it names too little the chain is left empty; no other policy chain changes |
| Retirement.PolicyUpdateSucceedsIff | controllers/network-policy-controller/networkpolicycontroller.go:378-388 | an update, like an add, succeeds iff the policy is listed and its annotation decodes, and changes no rule otherwise |
| Retirement.PolicyUpdateNeeds | controllers/network-policy-controller/networkpolicycontroller.go:378-402 | on any table, an update succeeds iff the policy is listed, its annotation decodes and, if that names no selector, the base chain can be listed |
| Retirement.NetworkDeleteExact | controllers/network-policy-controller/networkpolicycontroller.go:598-640 | each peer-only policy loses exactly the network's two rules however often it is reported; the chain goes iff a selecting policy is reported; nothing else changes |
| Outcomes.NetworkDeleteTakesOut | controllers/network-policy-controller/networkpolicycontroller.go:598-640 | told from the policies: chain and base rules go iff some policy of the namespace selects the network, the subnet's two rules go from the chain of each that has it as a peer only, and nothing else changes |
| Retirement.DeleteStopsAtFailure | controllers/network-policy-controller/networkpolicycontroller.go:606-612 | where more than two base rules lead to the network, the DELETE fails at the first listed policy that selects it: the network chain is empty and no chain of a policy listed only behind that one changes |
| Retirement.NetworkUpdateReplacesNothing | controllers/network-policy-controller/networkpolicycontroller.go:563-596 | no rule changes; success iff the network is known and no base rule leads to its chain |
| Workers.EveryInterleavingIsSerial | controllers/network-policy-controller/networkpolicycontroller.go:231-260 | only the holder of the mutex is inside a handler and finishing it gives the one-by-one state; no two workers have the same key, no added key is forgotten, and none is handled more often than added |
| Workers.NextKeepsQueue | vendor/k8s.io/client-go/util/workqueue/queue.go:87-155 | a key waits in the queue iff it is dirty and no worker has it, whatever is added, taken and finished |
| Workers.NextIsFirstInFirstOut | vendor/k8s.io/client-go/util/workqueue/queue.go:87-155 | keys leave the queue in the order in which they came into it |
| Workers.NextRemembers | vendor/k8s.io/client-go/util/workqueue/queue.go:87-155 | every added key has been handled since it was last added, or is dirty, or a worker waits with it |
| Workers.NextCounts | vendor/k8s.io/client-go/util/workqueue/queue.go:87-155 | every addition that does not find its key dirty accounts for exactly one handling, done or due |
| Workers.EveryKeyIsHandled | vendor/k8s.io/client-go/util/workqueue/queue.go:87-155 | no key is handled more often than added; at rest every key was handled after it was last added, and exactly as often as added iff no addition found it dirty |
| Workers.WorkersSerialise | controllers/network-policy-controller/networkpolicycontroller.go:642-646 | for any added keys that name subnets properly: whenever the mutex is free the table is that of handling the keys in lock order and is invariant, and every key is accounted for |
| Workers.RepeatedAddCollapses | vendor/k8s.io/client-go/util/workqueue/queue.go:87-106 | a key added again while it waits is queued once, at its old place |
| HandlerSteps.HandlersImplement | controllers/network-policy-controller/networkpolicycontroller.go:311-640 | the handlers, broken into one step per selector, listed policy, base line or named network, are programs the worker model covers |
| Instances.PolicyAddApplies | controllers/network-policy-controller/networkpolicycontroller.go:348-376 | on a concrete node the hypotheses of the exactness results hold together, and the policy's network gets its chain and jump |
| Counterexamples.TwoSelectorsLoseAJump | controllers/network-policy-controller/networkpolicycontroller.go:527-536 | two policies with chains select one network; its ADD succeeds and drops the first one's jump |
| Counterexamples.NoSubnetNoJump | controllers/network-policy-controller/networkpolicycontroller.go:527-536 | a network without a subnet: its ADD succeeds, and neither jump nor base rule is there |
| Counterexamples.MovedNetworkCannotBeRemoved | controllers/network-policy-controller/iptables/iptables.go:145-174 | a network that comes back with another subnet has four base rules; its DELETE fails and leaves its chain without REJECT |
| Counterexamples.DroppedSelectorBlocksDelete | controllers/network-policy-controller/networkpolicycontroller.go:394-453 | an update that drops a selector leaves its jump, and the delete that names the new selector only fails |
| Counterexamples.EmptyAnnotationBlocksDelete | controllers/network-policy-controller/networkpolicycontroller.go:185-192 | nothing jumps to a policy without an annotation, yet its DELETE fails and changes nothing |
| Counterexamples.UpdateIgnoresNewSubnet | controllers/network-policy-controller/networkpolicycontroller.go:575-592 | a network's subnet changes; its UPDATE fails and the base rules keep the old one |
| Counterexamples.RestartLeavesUnserved | controllers/network-policy-controller/networkpolicycontroller.go:323-329 | after a restart and the policy's ADD the network's chain rejects, but nothing leads to it and every packet passes |
| Counterexamples.CrashLosesReject | controllers/network-policy-controller/iptables/iptables.go:102-110 | after the first command of a network's ADD its chain is empty |
| Counterexamples.LookalikeIsDeleted | controllers/network-policy-controller/networkpolicycontroller.go:615-635 | deleting the network with 10.0.0.0/8 takes the rules of 110.0.0.0/8 and leaves its own |
| Counterexamples.NoSubnetBreaksPair | controllers/network-policy-controller/networkpolicycontroller.go:615-635 | deleting a network without a subnet takes away half of another peer's pair |
| Counterexamples.CrossingDependsOnOrder | controllers/network-policy-controller/iptables/iptables.go:119-138 | a packet between two networks is accepted or rejected, as the base chain is ordered |
| Commands.CommandKeepsLayers | controllers/network-policy-controller/iptables/iptables.go:47-237 | every command the controller issues keeps base rules leading to existing network chains, these jumping to existing policy chains or rejecting, policy chains only accepting, and foreign chains untouched |
| CommandTraces.HandleLeads | controllers/network-policy-controller/networkpolicycontroller.go:311-640 | each handler is the sequence of commands given for it, all of them of that kind |
| Crashes.EveryInstantIsLayered | controllers/network-policy-controller/networkpolicycontroller.go:214-260 | over every run with starts, handled keys and crashes between any two commands, for every feed, all subnets and all keys: the layers hold after every step and after any number of commands of the next handler |
| Crashes.NeverTooDeep | controllers/network-policy-controller/iptables/iptables.go:102-141 | at every such instant no packet is caught in a loop or meets a dangling jump |
| Crashes.OwnAddRepairs | controllers/network-policy-controller/networkpolicycontroller.go:527-536 | a network chain that a crash left without REJECT is repaired by the network's own ADD if a policy selects it |
| Enforcement.NothingDecidedAfterStart | controllers/network-policy-controller/iptables/iptables.go:47-73 | right after a start every packet passes undecided |
| Enforcement.OnlyOwnAddServesAgain | controllers/network-policy-controller/networkpolicycontroller.go:323-329 | handling an event brings a base rule to a chain that was already there only if the event is that network's own ADD |
| Enforcement.UnservedUntilOwnAdd | controllers/network-policy-controller/networkpolicycontroller.go:214-260 | over every run from a start, with any restarts and crashes, a surviving network chain has no base rule until its own ADD is handled |
| Enforcement.OwnAddEnforces | controllers/network-policy-controller/networkpolicycontroller.go:514-561 | after its ADD, also one that reports an error, a network is served iff it was before or some policy selects it and its subnet is well formed; every packet from or to a served network is accepted or rejected |
| PodNetwork.NextInterface | genie/genie-crd-processor.go:84-92 | the search ends and returns the number of unnamed entries before |
| PodNetwork.PluginInfoFromNetworks | genie/genie-crd-processor.go:68-127 | one plugin entry per network up to the first that cannot be resolved |
| PodNetwork.EntriesAreIndependent | genie/genie-crd-processor.go:77-124 | each entry is resolved on its own: no subnet or NIC is carried over |
| PodNetwork.InterfacesInOrder | genie/genie-crd-processor.go:84-92 | the k-th unnamed network gets eth(k-1), and interfaces given out automatically differ |
| Plans.NetworksMean | genie/genie-crd-processor.go:68-127 | an annotation of comma-separated networks, each with or without an interface behind a colon, gives one element per network up to the first unknown one: on the wanted or next free interface, with subnet and NIC of its physical network, and that one's plugin iff it is dedicated |
| Plans.PlanWithoutAnnotations | genie/genie-controller.go:345-357 | a pod without annotations gets the configured plugin, or weave, on eth0 |
| Plans.PlanOfPlugins | genie/genie-controller.go:358-366 | the i-th plugin of the list on the i-th interface |
| Plans.PlanOfNetworks | genie/genie-controller.go:369-378 | each listed network's plugin on its interface, or nothing at all if one is unknown |
| Plans.PlanOfChoice | genie/genie-controller.go:379-397 | the usage-based choice on eth0, kept in the pod's annotations |
| Plans.RecordMeans | genie/genie-controller.go:198-241 | a recorded address raises the count by one and is entered as `ip` and the interface's number plus one |
| Plans.RecordIff | genie/genie-controller.go:198-241 | exactly when a record is kept, and when the process dies over it |
| Plans.AddSucceedsIff | genie/genie-controller.go:84-142 | an ADD succeeds iff the annotations could be parsed and, without a record to keep, every plugin gave a result, or with one, every address was recorded |
| PodController.SmartChoice | genie/genie-cadvisor-client.go:167-181 | an answer iff the counters could be read: weave, flannel or calico, whose own first four characters are a solution of least recorded usage, and of least real usage over snapshots of the same interfaces; the process dies iff an interface name is shorter than four characters |
| PodController.Genie.ParseCniAnnotations | genie/genie-controller.go:345-401 | default, listed, network or smart plugins; a smart choice is patched into the pod |
| PodController.Genie.UpdatePodDefinition | genie/genie-controller.go:198-241 | the record for one interface, with the cases where it is skipped, refused or dies |
| PodController.Genie.AddPodNetwork | genie/genie-controller.go:84-142 | one plugin call per planned element, records kept, success iff nothing failed |
| PodController.Genie.DeletePodNetwork | genie/genie-controller.go:148-191 | one plugin call per planned element, whatever fails; success iff the plan parsed and every deletion succeeded |
| PodNetwork.SmartChoiceSticks | genie/genie-controller.go:373-397 | after a smart choice every later parse returns just that plugin |
| PodNetwork.DelMirrorsAdd | genie/genie-controller.go:84-191 | DEL visits exactly the (interface, plugin) pairs ADD planned, ADD requested all of them unless it died recording, and the one case where an unplanned ADD meets a planned DEL |
| PodNetwork.RecordedIpsMeans | genie/genie-controller.go:215-218 | n records raise the count by n and list ip1..ipn with eth0..eth(n-1), keeping other entries |
| PodNetwork.CniListIsRecorded | genie/genie-controller.go:120-137 | after an ADD over a list of n plugins that succeed, the pod's annotation decodes to those n records |
| ConfFiles.NetDir.FirstServing | genie/genie-controller.go:522-536 | the first file in order that matches and parses, or none if none does |
| ConfFiles.NetDir.CheckPluginBinary | genie/genie-controller.go:435-447 | true iff some binary's name contains the plugin's |
| ConfFiles.NetDir.AddNetwork | genie/genie-controller.go:449-546 | an existing file serves, or a default one is written, or the plugin is refused, also when the write fails |
| ConfFiles.UnservedAdd | genie/genie-controller.go:460-546 | bridge, macvlan and sriov, if nothing serves them, their binary is there and the write succeeds, get `/etc/cni/net.d/10-` and their name and `.conf`, which ADD uses if it decodes; every other plugin that nothing serves is refused, and the directory stays |
| ConfFiles.ListedMeans | genie/genie-controller.go:513-569 | ADD looks at the files that end with .conf or .conflist, DEL at those that end with .conf |
| ConfFiles.ServingMeans | genie/genie-controller.go:403-432 | a file serves a plugin iff its path holds the name and it is a `.conf` that decodes to a type or, for ADD, a `.conflist` that loads |
| ConfFiles.ConflistServesAddOnly | genie/genie-controller.go:513-600 | on a concrete directory ADD uses the conflist and DEL the other file |
| ConfFiles.NetDir.AddEach | genie/genie-controller.go:120-137 | the ADDs of a pod's plugins one after the other: the directory and each outcome |
| ConfFiles.NetDir.DeleteNetwork | genie/genie-controller.go:565-603 | the first plain conf file that serves; silently none if none serves; an error iff there is no conf file at all |
| ConfFiles.DirAtIs | genie/genie-controller.go:449-503 | the directory after any number of ADDs, from the directory before and the list: the old files with the default files of served-by-nothing plugins put in |
| ConfFiles.DelAgainstAdd | genie/genie-controller.go:505-603 | told from the directory before and the list of plugins: DEL selects ADD's file iff it is no conflist and no default file written since contains the name and sorts before it; after a refused ADD it selects nothing iff no such default file was written |
| ConfFiles.DeleteSelectsWhatAddUsed | genie/genie-controller.go:505-603 | the same on the directory itself, for each plugin of a pod's list, after all ADDs |
| ConfFiles.ConflistIsReplaced | genie/genie-controller.go:565-600 | where ADD used a conflist, DEL selects the first of the plain files that served then and the default files written since |
| ConfFiles.LaterAddCapturesDelete | genie/genie-controller.go:505-603 | for vlan and macvlan on a node with a vlan file only, DEL of vlan selects macvlan's new default file |
| PodFiles.DelServesWhatAddServed | genie/genie-controller.go:84-191 | for each requested interface of a pod, DEL repeats ADD's request and hands the plugin ADD's file iff that is no conflist and no default file written for a later request is in the way |
| ConfFiles.FirstIsUnique | genie/genie-controller.go:578-600 | at most one file can be the first to serve |
| NetworkUsage.Delta | genie/genie-cadvisor-client.go:136 | the wrapped, signed 64-bit difference, equal to the real one for counters less than 2^63 apart |
| NetworkUsage.TalliedCounters | genie/genie-cadvisor-client.go:132-138 | after any snapshots a counter is kept iff some snapshot lists the interface and its solution is known, and it is the one last listed |
| NetworkUsage.RecordedUsage | genie/genie-cadvisor-client.go:119-142 | over any snapshots: 0 for a solution never listed; else the difference of its last-listed interface to its previous counter if it was listed before, and otherwise the difference computed last for another |
| NetworkUsage.MeasuredIffListedBefore | genie/genie-cadvisor-client.go:132-139 | the record follows the counter of the solution's last-listed interface, as a difference to a fixed number, iff that interface was listed before |
| NetworkUsage.NewInterfaceIsMischarged | genie/genie-cadvisor-client.go:132-139 | two snapshots in which a new interface is charged with another's difference |
| NetworkUsage.TalliedUsage | genie/genie-cadvisor-client.go:119-142 | over snapshots of the same interfaces, recorded usage is the last difference of the last-listed interface, or 0 |
| NetworkUsage.TallyUsage | genie/genie-cadvisor-client.go:119-142 | the nested loops compute the tally; the process dies iff a name is shorter than four characters |
| NetworkUsage.SortedMap.Swap | utils/sort-map-values.go:22-24 | exchanges two elements and keeps the multiset |
| NetworkUsage.SortedMap.Sort | utils/sort-map-values.go:35 | ascending by map value, a permutation of the slice |
| NetworkUsage.SortedKeys | utils/sort-map-values.go:26-37 | the map's keys, each once, ascending by value |
| NetworkUsage.ComputeNetworkUsage | genie/genie-cadvisor-client.go:114-160 | weave, flannel or calico: the answer's first four characters are a solution of least recorded usage and, over snapshots of the same interfaces, of least real usage; no answer iff a name is too short |

## Left out

- The informer callbacks that turn object changes into queue keys (which updates are ignored, tombstones): they only add easy members; the keys they produce are modelled.
- Rate limiting and shutdown of the work queue; the controller adds keys without delay.
- Runs in which a network's subnet changes while the controller is running: excluded from the safety results by `FixedSubnets`; `Counterexamples.MovedNetworkCannotBeRemoved` shows what breaks and `Removal.NetworkRemovalSucceedsIff` when.
- Subnets that iptables accepts and prints differently (host bits set, a bare address, a dotted mask): the model refuses them like malformed ones.
- A failed write that leaves a truncated configuration file behind.
- Failures of single iptables commands for reasons outside the table (locks, kernel errors), and iptables versions without `-C`.
- Uniqueness of interface names that mix explicit and automatic naming: explicit names are never recorded, so it does not hold.
- The clipping of numerals beyond 64 bits in `strconv.Atoi`, and overflow of the 64-bit entry count.
- sort.Sort for slices of twelve or more elements, where the library switches algorithm; the map sorted here has three keys.
- The contents of plugin configurations, the runtime arguments and the plugin calls themselves.
- Generated clients, kubeconfig loading, the HTTP client of cAdvisor, signal handling and the command-line entry points.
