/** Inputs on which the controller falls short of what one would expect of it. */
module Counterexamples {
  import opened Options
  import opened Sequences
  import opened Text
  import opened Rules
  import opened Tables
  import opened Invariant
  import opened Preservation
  import opened Removal
  import opened Handlers
  import opened Frames
  import opened Safety
  import opened Exactness
  import opened Retirement
  import opened Pairing
  import opened Commands
  import opened CommandTraces
  import V = Verdict
  import opened Instances

  const NET_N := NetName(MD5, "n", "d")
  const NET_E := NetName(MD5, "e", "d")
  const POL_A := PolName(MD5, "a", "d")
  const POL_B := PolName(MD5, "b", "d")

  lemma NamesDiffer()
    ensures IsNet(NET_N) && IsNet(NET_E) && IsPol(POL_A) && IsPol(POL_B)
    ensures NET_N != NET_E && POL_A != POL_B
  {
    assert NET_N[6] == FirstLetter("nd")[0] == '0' && NET_E[6] == FirstLetter("ed")[0] == 'e';
    assert POL_A[6] == FirstLetter("ad")[0] == 'a' && POL_B[6] == FirstLetter("bd")[0] == 'b';
  }

  ghost function WorldOf(policies: seq<PolicyObject>, networks: map<(string, string), string>): World {
    World(policies, networks, (k: set<string>) => Enumeration(k))
  }

  /** What a policy is listed as for a network that it selects. */
  function Selecting(name: string): PolicyInfo { PolicyInfo(name, "d", Some(map["n" := [""]])) }

  lemma Listed(w: World, name: string)
    ensures Report(ENV, w, PolicyObject(name, "d", "n"), "n") == [Selecting(name)]
  {
    OneSelector('n', "");
    assert ['n'] + "" == "n" && ['n'] == "n";
    ContainsOfEqualLength("n", "n");
  }

  lemma ListedOne(w: World, name: string)
    requires w.policies == [PolicyObject(name, "d", "n")]
    ensures ListPolicies(ENV, w, "n", "d") == [Selecting(name)]
  {
    hide Report;
    Listed(w, name);
    var none: seq<PolicyInfo> := [];
    assert Init(w.policies) == [] && Reports(ENV, w, Init(w.policies), "n", "d") == none;
    assert none + [Selecting(name)] == [Selecting(name)];
  }

  // ---------- Two selecting policies ----------

  const BOTH: seq<PolicyObject> := [PolicyObject("a", "d", "n"), PolicyObject("b", "d", "n")]

  lemma ListedTwo(w: World)
    requires w.policies == BOTH
    ensures ListPolicies(ENV, w, "n", "d") == [Selecting("a"), Selecting("b")]
  {
    hide Report;
    Listed(w, "a");
    Listed(w, "b");
    var none: seq<PolicyInfo> := [];
    assert Init(BOTH) == [PolicyObject("a", "d", "n")] && Init(Init(BOTH)) == [];
    assert Reports(ENV, w, Init(Init(BOTH)), "n", "d") == none;
    assert Reports(ENV, w, Init(BOTH), "n", "d") == none + [Selecting("a")] == [Selecting("a")];
    assert [Selecting("a")] + [Selecting("b")] == [Selecting("a"), Selecting("b")];
  }

  /** Both policies have their chains; the network's ADD succeeds and drops the first policy's jump. */
  lemma TwoSelectorsLoseAJump()
    ensures var t: Table := map[FORWARD := [Jump(BASE)], BASE := [], POL_A := [], POL_B := []];
            var w := WorldOf(BOTH, map[("d", "n") := NET]);
            var (s, ok) := NetworkAdd(ENV, _ => w, State(t, 0), "n", "d");
            && ok && NET_N in s.table
            && Jump(POL_A) !in s.table[NET_N] && Jump(POL_B) in s.table[NET_N]
  {
    hide Kind, Cidr, Trim, Reports, NetworkAdd, NetName, PolName;
    var t: Table := map[FORWARD := [Jump(BASE)], BASE := [], POL_A := [], POL_B := []];
    var w := WorldOf(BOTH, map[("d", "n") := NET]);
    var feed: Feed := _ => w;
    var infos := [Selecting("a"), Selecting("b")];
    KindFacts();
    NamesDiffer();
    TrimStays("n");
    NetsAreCidr();
    ListedTwo(w);
    assert Init(infos) == [Selecting("a")] && Last(infos) == Selecting("b");
    assert Last(Init(infos)) == Selecting("a") && LastSelecting(infos) == Some(Selecting("b"));
    NetworkAddKeepsLastSelector(ENV, feed, State(t, 0), "n", "d");
    assert SelectorsHaveChains(MD5, t, "d", infos);
    assert Selecting("a") in infos && Selecting("b") in infos;
    JumpSurvivesIffLast(ENV, feed, State(t, 0), "n", "d", Selecting("a"));
    JumpSurvivesIffLast(ENV, feed, State(t, 0), "n", "d", Selecting("b"));
  }

  // ---------- A network without a subnet ----------

  lemma EmptyIsNoCidr()
    ensures !Cidr("")
  {
    hide Cidr;
    if Cidr("") { CidrChars(""); }
  }

  /** The network's subnet is left out: its ADD succeeds, and neither the policy's jump nor a base rule is there. */
  lemma NoSubnetNoJump()
    ensures var t: Table := map[FORWARD := [Jump(BASE)], BASE := [], POL_A := []];
            var w := WorldOf([PolicyObject("a", "d", "n")], map[("d", "n") := ""]);
            var (s, ok) := NetworkAdd(ENV, _ => w, State(t, 0), "n", "d");
            ok && NET_N in s.table && s.table[NET_N] == [REJECT_ALL] && BASE in s.table && s.table[BASE] == []
  {
    hide Kind, Cidr, Trim, Reports, NetworkAdd, NetName, PolName;
    var t: Table := map[FORWARD := [Jump(BASE)], BASE := [], POL_A := []];
    var w := WorldOf([PolicyObject("a", "d", "n")], map[("d", "n") := ""]);
    var infos := [Selecting("a")];
    KindFacts();
    NamesDiffer();
    TrimStays("n");
    EmptyIsNoCidr();
    ListedOne(w, "a");
    assert Init(infos) == [] && Last(infos) == Selecting("a") && LastSelecting(infos) == Some(Selecting("a"));
    NetworkAddKeepsLastSelector(ENV, _ => w, State(t, 0), "n", "d");
    assert SelectorsHaveChains(MD5, t, "d", infos);
  }

  // ---------- A network that comes back with another subnet ----------

  /** The table after the network's ADD with one selecting policy, whose chain is there. */
  ghost function Added(t: Table, subnet: string): (u: Table)
    requires BASE in t
    ensures BASE in u
  {
    WithNetwork(t, NET_N, subnet)[NET_N := [Jump(POL_A), REJECT_ALL]]
  }

  lemma OneAdd(feed: Feed, t: Table, tick: nat, subnet: string)
    requires BASE in t && POL_A in t && Cidr(subnet) && feed(tick).networks == map[("d", "n") := subnet]
    requires feed(tick + 1).policies == [PolicyObject("a", "d", "n")]
    ensures NetworkAdd(ENV, feed, State(t, tick), "n", "d") == (State(Added(t, subnet), tick + 2), true)
  {
    hide Kind, Cidr, Trim, Reports, NetName, PolName, AddNetwork, BaseWith;
    KindFacts();
    NamesDiffer();
    TrimStays("n");
    ListedOne(feed(tick + 1), "a");
    AddNetworkIs(t, NET_N, subnet);
    var infos := [Selecting("a")];
    assert Init(infos) == [] && Last(infos) == Selecting("a");
    var t1 := WithNetwork(t, NET_N, subnet);
    assert InsertFirst(t1, NET_N, Jump(POL_A)) == (Added(t, subnet), Done) by {
      assert [Jump(POL_A)] + [REJECT_ALL] == [Jump(POL_A), REJECT_ALL];
    }
    BlankPeer(feed, State(Added(t, subnet), tick + 2), POL_A);
    var s2 := State(t, tick + 2);
    assert AddInfos(ENV, feed, s2, "n", "d", subnet, Init(infos)) == (s2, true);
    assert AddInfo(ENV, feed, s2, "n", "d", subnet, Selecting("a")) == (State(Added(t, subnet), tick + 2), true);
  }

  lemma BlankPeer(feed: Feed, s: State, chain: string)
    ensures AddPeers(feed, s, "d", chain, [""], true) == s
  {
    assert Init([""]) == [] && Last([""]) == "";
    assert Trim("") == "";
  }

  /** The policy has its chain, the network has none. */
  const STARTED: Table := map[FORWARD := [Jump(BASE)], BASE := [], POL_A := []]

  const ONE: seq<PolicyObject> := [PolicyObject("a", "d", "n")]

  /**
    The network comes up with one subnet, goes while its policy is out of the
    cache, and comes back with another subnet.
   */
  ghost function Moving(n: nat): World {
    if n < 2 then WorldOf(ONE, map[("d", "n") := NET])
    else if n == 2 then WorldOf([], map[])
    else WorldOf(ONE, map[("d", "n") := OTHER_NET])
  }

  lemma FourRules(base: seq<Rule>)
    requires base == BaseWith(BaseWith([], NET_N, NET), NET_N, OTHER_NET)
    ensures base == [Rule(Dst(NET), NET_N), Rule(Src(NET), NET_N), Rule(Dst(OTHER_NET), NET_N),
                     Rule(Src(OTHER_NET), NET_N)]
    ensures Count(base, NET_N) == 4
  {
    hide NetName;
    assert NET[1] != OTHER_NET[1];
    var a, b := Rule(Dst(NET), NET_N), Rule(Src(NET), NET_N);
    var none: seq<Rule> := [];
    assert AppendNew(none, a) == [a] && AppendNew([a], b) == [a, b];
    var c, d := Rule(Dst(OTHER_NET), NET_N), Rule(Src(OTHER_NET), NET_N);
    assert AppendNew([a, b], c) == [a, b, c] && AppendNew([a, b, c], d) == [a, b, c, d];
    assert [a, b, c, d][1..] == [b, c, d] && [b, c, d][1..] == [c, d] && [c, d][1..] == [d] && [d][1..] == none;
    assert Count(none, NET_N) == 0 && Count([d], NET_N) == 1 && Count([c, d], NET_N) == 2;
    assert Count([b, c, d], NET_N) == 3;
  }

  lemma MovedBaseOk(t: Table)
    requires BASE in t && NET_N in t && t[BASE] == BaseWith(BaseWith([], NET_N, NET), NET_N, OTHER_NET)
    ensures ChainOk(t, BASE) && Count(t[BASE], NET_N) == 4
  {
    hide Kind, Cidr, NetName, BaseWith, Count;
    KindFacts();
    NamesDiffer();
    NetsAreCidr();
    FourRules(t[BASE]);
    assert NET[1] != OTHER_NET[1];
  }

  lemma MovedShape(t: Table)
    requires t == Added(Added(STARTED, NET), OTHER_NET)
    ensures Shape(t) && Count(t[BASE], NET_N) == 4
  {
    hide Kind, Cidr, NetName, PolName, BaseWith, Count;
    KindFacts();
    NamesDiffer();
    assert t[FORWARD] == [Jump(BASE)] && t[POL_A] == [];
    assert ChainOk(t, FORWARD) && ChainOk(t, POL_A);
    assert NetworkRules(t, t[NET_N]);
    assert ChainOk(t, NET_N);
    hide ChainOk;
    MovedBaseOk(t);
  }

  lemma ComesAndGoes()
    ensures Handle(ENV, Moving, State(STARTED, 0), NetworkAdded("n", "d")).0 == State(Added(STARTED, NET), 2)
    ensures Handle(ENV, Moving, State(Added(STARTED, NET), 2), NetworkDeleted("n", "d", NET)).0 ==
            State(Added(STARTED, NET), 3)
    ensures Handle(ENV, Moving, State(Added(STARTED, NET), 3), NetworkAdded("n", "d")).0 ==
            State(Added(Added(STARTED, NET), OTHER_NET), 5)
  {
    hide Kind, Cidr, NetName, PolName, NetworkAdd, BaseWith, Reports;
    KindFacts();
    NamesDiffer();
    NetsAreCidr();
    OneAdd(Moving, STARTED, 0, NET);
    NothingListed(Moving(2));
    OneAdd(Moving, Added(STARTED, NET), 3, OTHER_NET);
  }

  lemma CannotGo(t: Table)
    requires t == Added(Added(STARTED, NET), OTHER_NET)
    ensures var (s, ok) := Handle(ENV, Moving, State(t, 5), NetworkDeleted("n", "d", OTHER_NET));
            !ok && NET_N in s.table && s.table[NET_N] == []
  {
    hide Kind, Cidr, NetName, PolName, BaseWith, Reports, Shape, RemoveNetwork, Count;
    NamesDiffer();
    MovedShape(t);
    ListedOne(Moving(5), "a");
    var infos := [Selecting("a")];
    assert Init(infos) == [] && Last(infos) == Selecting("a");
    assert DeleteInfos(ENV, t, "n", "d", OTHER_NET, Init(infos)) == (t, true);
    NetworkRemovalSucceedsIff(t, NET_N);
  }

  /** The base chain then has four rules for the network; its DELETE fails, and leaves its chain without the REJECT. */
  lemma MovedNetworkCannotBeRemoved()
    ensures var s1 := Handle(ENV, Moving, State(STARTED, 0), NetworkAdded("n", "d")).0;
            var s2 := Handle(ENV, Moving, s1, NetworkDeleted("n", "d", NET)).0;
            var s3 := Handle(ENV, Moving, s2, NetworkAdded("n", "d")).0;
            var (s4, ok) := Handle(ENV, Moving, s3, NetworkDeleted("n", "d", OTHER_NET));
            && BASE in s3.table && Count(s3.table[BASE], NET_N) == 4
            && !ok && NET_N in s4.table && s4.table[NET_N] == []
  {
    hide Handle, Count, Added;
    ComesAndGoes();
    MovedShape(Added(Added(STARTED, NET), OTHER_NET));
    CannotGo(Added(Added(STARTED, NET), OTHER_NET));
  }

  lemma NothingListed(w: World)
    requires w.policies == []
    ensures ListPolicies(ENV, w, "n", "d") == []
  {
  }

  // ---------- A policy that moves from one network to another ----------

  /** The policy selected `n` and now selects `e`. */
  ghost const MOVED: World := WorldOf([PolicyObject("a", "d", "e")], map[("d", "n") := NET, ("d", "e") := OTHER_NET])

  const BEFORE: Table := map[
    FORWARD := [Jump(BASE)],
    BASE := [Rule(Dst(NET), NET_N), Rule(Src(NET), NET_N)],
    POL_A := [], NET_N := [Jump(POL_A), REJECT_ALL]]

  ghost const MOVED_HYP: Hyp :=
    Hyp((c: string) => if c == NET_N then NET else OTHER_NET, map[FORWARD := [Jump(BASE)]], false, (_: string) => true)

  lemma BeforeIsSafe()
    ensures Safe(BEFORE, MOVED_HYP)
  {
    hide Kind, Cidr, NetName, PolName;
    KindFacts();
    NamesDiffer();
    NetsAreCidr();
    assert ChainOk(BEFORE, FORWARD) && ChainOk(BEFORE, BASE) && ChainOk(BEFORE, POL_A);
    assert NetworkRules(BEFORE, BEFORE[NET_N]);
    assert ChainOk(BEFORE, NET_N);
  }

  lemma StillServed()
    ensures Rule(Dst(NET), NET_N) in BEFORE[BASE]
  {
    hide NetName, PolName;
    assert BEFORE[BASE][0] == Rule(Dst(NET), NET_N);
  }

  lemma UpdateRefused(feed: Feed)
    ensures NetworkUpdate(ENV, feed, State(BEFORE, 0), "n", "d") == (State(BEFORE, 1), false)
  {
    hide Kind, NetName, PolName, NetworkUpdate, Safe, Inv, AnyContains, Listing;
    BeforeIsSafe();
    SafeIsInv(BEFORE, MOVED_HYP);
    StillServed();
    NetworkUpdateIs(ENV, feed, State(BEFORE, 0), "n", "d");
    NetworkUpdateReplacesNothing(ENV, feed, State(BEFORE, 0), "n", "d", MOVED_HYP.subnetOf);
    var r := Rule(Dst(NET), NET_N);
    assert r in BEFORE[BASE] && r.target == NetName(MD5, "n", "d");
  }

  /** The network's subnet changes; its UPDATE fails and the base rules keep the old one. */
  lemma UpdateIgnoresNewSubnet()
    ensures var w := WorldOf(ONE, map[("d", "n") := OTHER_NET]);
            Handle(ENV, _ => w, State(BEFORE, 0), NetworkUpdated("n", "d")) == (State(BEFORE, 1), false)
  {
    hide NetworkUpdate;
    UpdateRefused(_ => WorldOf(ONE, map[("d", "n") := OTHER_NET]));
  }

  lemma SelectsE()
    ensures Parse(ENV, "e") == Some(map["e" := [""]])
    ensures FindPolicy(MOVED.policies, "a", "d") == Some(PolicyObject("a", "d", "e"))
  {
    hide Parse;
    OneSelector('e', "");
    assert ['e'] + "" == "e" && ['e'] == "e";
  }

  lemma UpdateLeavesJump(feed: Feed)
    requires forall n: nat :: feed(n) == MOVED
    ensures var (s, ok) := PolicyUpdate(ENV, feed, State(BEFORE, 0), "a", "d");
            ok && NET_N in s.table && Jump(POL_A) in s.table[NET_N] && Safe(s.table, MOVED_HYP)
  {
    hide Kind, Cidr, NetName, PolName, PolicyUpdate, Parse, Safe, FixedSubnets, FindPolicy, SelectedBy;
    KindFacts();
    NamesDiffer();
    BeforeIsSafe();
    SelectsE();
    var networks: Networks := map["e" := [""]];
    assert "e" in networks;
    UpdateKeepsStaleJumps(ENV, feed, State(BEFORE, 0), "a", "d");
    MovedIsFixed(feed);
    PolicyUpdateSafe(ENV, feed, State(BEFORE, 0), "a", "d", MOVED_HYP);
    UpdateSucceeds(feed, State(BEFORE, 0), networks);
  }

  lemma DeleteIsBlocked(feed: Feed, s: State)
    requires (forall n: nat :: feed(n) == MOVED) && Safe(s.table, MOVED_HYP)
    requires NET_N in s.table && Jump(POL_A) in s.table[NET_N]
    ensures var (s', ok) := PolicyDelete(ENV, feed, s, "a", "d", "e");
            !ok && POL_A in s'.table && s'.table[POL_A] == []
  {
    hide Kind, NetName, PolName, PolicyDelete, Parse, Safe, ChainsNamedBy, FindPolicy, Released, AllNamed;
    NamesDiffer();
    SelectsE();
    SafeIsInv(s.table, MOVED_HYP);
    PolicyDeleteExact(ENV, feed, s, "a", "d", "e", MOVED_HYP.subnetOf);
    NamesOnlyE();
    assert !AllNamed(s.table, POL_A, {NET_E}) by { NotNamed(s.table); }
  }

  lemma NotNamed(t: Table)
    requires NET_N in t && Jump(POL_A) in t[NET_N]
    ensures !AllNamed(t, POL_A, {NET_E})
  {
    hide Kind, NetName, PolName;
    NamesDiffer();
    assert Jump(POL_A).target == POL_A;
  }

  /**
    UPDATE leaves the jump from the network that the policy dropped, and the
    DELETE, which names the new network only, then fails.
   */
  lemma DroppedSelectorBlocksDelete()
    ensures var (s1, updated) := Handle(ENV, _ => MOVED, State(BEFORE, 0), PolicyUpdated("a", "d", "n"));
            var (s2, deleted) := Handle(ENV, _ => MOVED, s1, PolicyDeleted("a", "d", "e"));
            && updated && NET_N in s1.table && Jump(POL_A) in s1.table[NET_N]
            && !deleted && POL_A in s2.table && s2.table[POL_A] == []
  {
    hide PolicyUpdate, PolicyDelete, Safe;
    var feed: Feed := _ => MOVED;
    UpdateLeavesJump(feed);
    DeleteIsBlocked(feed, PolicyUpdate(ENV, feed, State(BEFORE, 0), "a", "d").0);
  }

  lemma MovedIsFixed(feed: Feed)
    requires forall n: nat :: feed(n) == MOVED
    ensures FixedSubnets(ENV, feed, MOVED_HYP)
  {
    hide NetName, Cidr;
    NamesDiffer();
    forall n: nat, name, namespace | (namespace, name) in feed(n).networks
      ensures feed(n).networks[(namespace, name)] == MOVED_HYP.subnetOf(NetName(MD5, name, namespace))
    {
      assert namespace == "d" && (name == "n" || name == "e");
    }
  }

  lemma UpdateSucceeds(feed: Feed, s: State, networks: Networks)
    requires FindPolicy(feed(s.tick).policies, "a", "d") == Some(PolicyObject("a", "d", "e"))
    requires Parse(ENV, "e") == Some(networks) && networks != map[]
    ensures PolicyUpdate(ENV, feed, s, "a", "d").1
  {
    hide Parse, Populate, FindPolicy, SweepLines, Listing, PolName;
  }

  lemma SafeIsInv(t: Table, h: Hyp)
    requires Safe(t, h)
    ensures Inv(t, h.subnetOf)
  {
  }

  lemma NamesOnlyE()
    ensures ChainsNamedBy(ENV, "e", "d") == {NET_E}
  {
    hide Trim, NetName, Parse;
    SelectsE();
    TrimStays("e");
    var networks: Networks := map["e" := [""]];
    assert networks.Keys == {"e"};
    forall c ensures c in ChainsNamedBy(ENV, "e", "d") <==> c == NET_E {
      assert "e" in networks;
    }
  }

  // ---------- A policy that has lost its annotation ----------

  /** Nothing jumps to the policy, yet the DELETE of a policy without an annotation fails and changes nothing. */
  lemma EmptyAnnotationBlocksDelete(feed: Feed)
    ensures var (s, ok) := Handle(ENV, feed, State(STARTED, 0), PolicyDeleted("a", "d", ""));
            AllNamed(STARTED, POL_A, {}) && !ok && s == State(STARTED, 0)
  {
    hide Kind, PolName;
    KindFacts();
    NamesDiffer();
  }

  // ---------- A restart ----------

  lemma OneKey(keys: seq<string>, key: string)
    requires Enumerates(keys, {key})
    ensures keys == [key]
  {
    assert |keys| > 1 ==> keys[0] != keys[1];
    assert key in keys;
    assert forall i :: 0 <= i < |keys| ==> keys[i] in keys;
    assert forall i :: 0 <= i < |keys| ==> keys[i] == key;
  }

  lemma RestartedBefore()
    ensures Restart(BEFORE).0 == BEFORE[BASE := []]
  {
    hide NetName, PolName;
    KindFacts();
  }

  lemma ReAddKeepsBaseEmpty(feed: Feed)
    requires forall n: nat :: feed(n) == WorldOf(ONE, map[("d", "n") := NET])
    ensures var (s, ok) := PolicyAdd(ENV, feed, State(BEFORE[BASE := []], 0), "a", "d");
            ok && NET_N in s.table && s.table[NET_N] == [Jump(POL_A), REJECT_ALL] && BASE in s.table &&
              s.table[BASE] == []
  {
    hide Kind, Cidr, Trim, NetName, PolName, Parse, PopulateKey, Populate;
    KindFacts();
    NamesDiffer();
    OneSelector('n', "");
    assert ['n'] + "" == "n" && ['n'] == "n";
    TrimStays("n");
    var networks: Networks := map["n" := [""]];
    assert networks.Keys == {"n"};
    assert FindPolicy(ONE, "a", "d") == Some(ONE[0]);
    var t1 := ClearChain(BEFORE[BASE := []], POL_A);
    var keys := feed(1).order({"n"});
    OneKey(keys, "n");
    assert Init(["n"]) == [] && Last(["n"]) == "n";
    PresentKeyJumps(ENV, feed, State(t1, 1), "d", POL_A, networks, "n");
    OneSelectorPopulates(feed, State(t1, 1), networks);
  }

  lemma OneSelectorPopulates(feed: Feed, s: State, networks: Networks)
    ensures Populate(ENV, feed, s, "d", POL_A, networks, ["n"]) == PopulateKey(ENV, feed, s, "d", POL_A, networks, "n")
  {
    hide PopulateKey, PolName;
    assert Init(["n"]) == [] && Last(["n"]) == "n";
    assert Populate(ENV, feed, s, "d", POL_A, networks, []) == s;
  }

  /**
    The controller is started again and sees the policy's ADD first: the
    network's chain still rejects, but nothing leads to it, and every packet
    passes.
   */
  lemma RestartLeavesUnserved(packet: V.Packet, inside: V.Subnets, depth: nat)
    ensures var t := Restart(BEFORE).0;
            var (s, ok) := Handle(ENV, _ => WorldOf(ONE, map[("d", "n") := NET]), State(t, 0), PolicyAdded("a", "d"));
            && NET_N in t && ok && NET_N in s.table && s.table[NET_N] == [Jump(POL_A), REJECT_ALL]
            && BASE in s.table && V.Eval(s.table, s.table[BASE], packet, inside, depth) == V.Passed
  {
    hide PolicyAdd, NetName, PolName, Restart, Kind;
    KindFacts();
    NamesDiffer();
    RestartedBefore();
    ReAddKeepsBaseEmpty(_ => WorldOf(ONE, map[("d", "n") := NET]));
  }

  // ---------- A crash in the middle of an operation ----------

  /** The controller dies after the first command of the network's ADD: the chain has lost its jump and its REJECT. */
  lemma CrashLosesReject(feed: Feed)
    requires feed(0).networks == map[("d", "n") := NET] && feed(1).policies == ONE
    ensures var cmds := NetworkAddCommands(ENV, feed, State(BEFORE, 0), "n", "d");
            cmds != [] && ExecAll(BEFORE, cmds[..1]) == BEFORE[NET_N := []]
  {
    hide Kind, Cidr, Trim, NetName, PolName, Reports;
    hide AddPeersCommands, InsertCommands, AddNetwork, InsertFirst, AppendUnique;
    TrimStays("n");
    ListedOne(feed(1), "a");
    var infos, s2 := [Selecting("a")], State(BEFORE, 2);
    assert Init(infos) == [] && Last(infos) == Selecting("a");
    var none: seq<Command> := [];
    assert AddInfosCommands(ENV, feed, s2, "n", "d", NET, Init(infos)) == none;
    var cmds := NetworkAddCommands(ENV, feed, State(BEFORE, 0), "n", "d");
    assert cmds == none + AddInfoCommands(ENV, feed, s2, "n", "d", NET, Selecting("a"));
    assert AddNetworkCommands(BEFORE, NET_N, NET)[0] == Flush(NET_N);
    assert cmds[0] == Flush(NET_N);
    assert cmds[..1] == [Flush(NET_N)] && [Flush(NET_N)][1..] == [];
    assert ExecAll(BEFORE, [Flush(NET_N)]) == ExecAll(Exec(BEFORE, Flush(NET_N)), []);
  }

  // ---------- One subnet's text inside another's ----------

  const WIDE_NET := "110.0.0.0/8"

  /** Deleting the network with 10.0.0.0/8 takes the rules of the peer with 110.0.0.0/8 and leaves its own. */
  lemma LookalikeIsDeleted()
    ensures var t := map[POL_A := [AcceptFrom(WIDE_NET), AcceptTo(WIDE_NET), AcceptFrom(NET), AcceptTo(NET)]];
            DeleteInfo(ENV, t, "n", "d", NET, PolicyInfo("a", "d", None)) ==
            (map[POL_A := [AcceptFrom(NET), AcceptTo(NET)]], true)
  {
    hide Kind, Cidr, Contains, PolName, DropTwo;
    var a, b, c, d := AcceptFrom(WIDE_NET), AcceptTo(WIDE_NET), AcceptFrom(NET), AcceptTo(NET);
    var rules := [a, b, c, d];
    var t := map[POL_A := rules];
    NamesDiffer();
    NetsAreCidr();
    WideIsCidr();
    DropTwoTakesFirstHits(POL_A, rules, NET);
    assert Contains(WIDE_NET, NET) by { WideContainsNet(); }
    assert rules[1..] == [b, c, d] && [b, c, d][1..] == [c, d];
    assert DropHits([c, d], NET, 0) == [c, d];
    assert DropHits([b, c, d], NET, 1) == [c, d];
    assert DropHits(rules, NET, 2) == [c, d];
    assert t[POL_A := [c, d]] == map[POL_A := [c, d]];
  }

  /** Deleting a network that has no subnet takes away half of another peer's pair. */
  lemma NoSubnetBreaksPair()
    ensures var t := map[POL_A := [AcceptFrom(NET), AcceptTo(NET)]];
            DeleteInfo(ENV, t, "n", "d", "", PolicyInfo("a", "d", None)) == (map[POL_A := [AcceptTo(NET)]], true)
  {
    hide Kind, Cidr, Contains, PolName, DropTwo;
    var rules := [AcceptFrom(NET), AcceptTo(NET)];
    var t := map[POL_A := rules];
    EmptyTextDropsFirst(POL_A, rules);
    assert rules[1..] == [AcceptTo(NET)];
    assert t[POL_A := [AcceptTo(NET)]] == map[POL_A := [AcceptTo(NET)]];
  }

  lemma WideIsCidr()
    ensures Cidr(WIDE_NET)
  {
    hide Cidr;
    assert Itoa(1) == "1" && Itoa(11) == "11" && Itoa(110) == "110";
    ClassA(110, "110");
    assert "110" + ".0.0.0/8" == WIDE_NET;
  }

  lemma WideContainsNet()
    ensures Contains(WIDE_NET, NET)
  {
    assert OccursAt(WIDE_NET, NET, 1);
  }

  // ---------- Traffic between two networks ----------

  /** Both networks claim the packet; one lets it in, the other does not. */
  const CROSSED: Table := map[
    FORWARD := [Jump(BASE)],
    BASE := [Rule(Src(NET), NET_N), Rule(Dst(OTHER_NET), NET_E)],
    NET_N := [Jump(POL_A), REJECT_ALL], NET_E := [REJECT_ALL], POL_A := [AcceptFrom(NET)]]

  const CROSSING := V.Packet(1, 2)

  function Inside(subnet: string, a: V.Address): bool {
    (subnet == NET && a == 1) || (subnet == OTHER_NET && a == 2)
  }

  /** A packet from the first network to the second is accepted or rejected, as the base chain is ordered. */
  lemma CrossingDependsOnOrder()
    ensures var swapped := CROSSED[BASE := [CROSSED[BASE][1], CROSSED[BASE][0]]];
            && V.Eval(CROSSED, CROSSED[BASE], CROSSING, Inside, 2) == V.Accepted
            && V.Eval(swapped, swapped[BASE], CROSSING, Inside, 2) == V.Rejected
  {
    hide Kind, NetName, PolName;
    KindFacts();
    NamesDiffer();
    assert NET[1] != OTHER_NET[1];
    var t: Table := CROSSED;
    var u: Table := t[BASE := [t[BASE][1], t[BASE][0]]];
    assert V.Eval(t, t[POL_A], CROSSING, Inside, 0) == V.Accepted;
    assert V.Eval(t, t[NET_N], CROSSING, Inside, 1) == V.Accepted;
    assert V.Eval(t, t[BASE], CROSSING, Inside, 2) == V.Accepted;
    assert V.Eval(u, u[NET_E], CROSSING, Inside, 1) == V.Rejected;
    assert V.Eval(u, u[BASE], CROSSING, Inside, 2) == V.Rejected;
  }
}
