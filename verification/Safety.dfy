/**
  Safety of every handler: whatever the informer caches hold at each read, the
  table invariant holds after a handled key if it held before, and no chain of
  other software is touched.
 */
module Safety {
  import opened Options
  import opened Sequences
  import opened Text
  import opened Rules
  import opened Tables
  import opened Invariant
  import opened Preservation
  import opened Pairing
  import opened Handlers

  /** The chains of other software are those of `f`. */
  ghost predicate ForeignAs(t: Table, f: Table) {
    forall c :: Kind(c) == ForeignChain ==> (c in t <==> c in f) && (c in t ==> t[c] == f[c])
  }

  /**
    What a run may rely on: each chain name's subnet, the chains of other
    software, and, where pairs of peer rules are at stake (`paired`), which
    subnets are ever used.
   */
  datatype Hyp = Hyp(subnetOf: string -> string, foreign: Table, paired: bool, universe: string -> bool)

  ghost predicate Safe(t: Table, h: Hyp) {
    Inv(t, h.subnetOf) && ForeignAs(t, h.foreign) && (h.paired ==> Paired(t, h.universe))
  }

  ghost predicate SubnetOk(h: Hyp, subnet: string) {
    h.paired ==> SubstringFree(h.universe) && (Cidr(subnet) ==> h.universe(subnet))
  }

  /** Over the whole run, networks that share a chain name have one subnet. */
  ghost predicate FixedSubnets(env: Env, feed: Feed, h: Hyp) {
    forall n: nat, name, namespace :: (namespace, name) in feed(n).networks ==>
      var subnet := feed(n).networks[(namespace, name)];
      SubnetOk(h, subnet) && (Cidr(subnet) ==> subnet == h.subnetOf(NetName(env.md5, name, namespace)))
  }

  /** A deletion names the subnet the network had. */
  ghost predicate EventOk(h: Hyp, e: Event) {
    h.paired && e.NetworkDeleted? ==> SubstringFree(h.universe) && h.universe(e.subnet)
  }

  ghost predicate KeyOk(env: Env, h: Hyp, key: string) {
    match env.decode(key)
    case None => true
    case Some(fields) => EventOk(h, EventOf(fields))
  }

  // ---------- Operations ----------

  lemma ClearPolicySafe(t: Table, p: string, h: Hyp)
    requires Safe(t, h) && IsPol(p)
    ensures Safe(ClearChain(t, p), h)
  {
    hide Kind;
    ClearPolicyKeepsInv(t, p, h.subnetOf);
  }

  lemma InsertPeerSafe(t: Table, p: string, subnet: string, h: Hyp)
    requires Safe(t, h) && IsPol(p) && SubnetOk(h, subnet)
    ensures Safe(InsertPeer(t, p, subnet).0, h)
  {
    hide Kind, Cidr;
    if h.paired { InsertPeerKeepsPairs(t, p, subnet, h.universe); }
    InsertPeerKeepsInv(t, p, subnet, h.subnetOf);
  }

  lemma InsertJumpSafe(t: Table, c: string, p: string, h: Hyp)
    requires Safe(t, h) && IsPol(p) && (IsNet(c) || c == "")
    ensures Safe(InsertFirst(t, c, Jump(p)).0, h)
  {
    hide Kind;
    InsertJumpKeepsInv(t, c, p, h.subnetOf);
  }

  lemma AddNetworkSafe(t: Table, c: string, subnet: string, h: Hyp)
    requires Safe(t, h) && IsNet(c) && (Cidr(subnet) ==> subnet == h.subnetOf(c))
    ensures Safe(AddNetwork(t, c, subnet).0, h)
    ensures AddNetwork(t, c, subnet).1 == c || AddNetwork(t, c, subnet).1 == ""
  {
    hide Kind, AddNetwork;
    KindFacts();
    AddNetworkExact(t, c, subnet, h.subnetOf);
  }

  lemma RemoveJumpSafe(t: Table, c: string, p: string, h: Hyp)
    requires Safe(t, h) && IsNet(c) && IsPol(p)
    ensures Safe(RemoveJump(t, c, p).0, h)
  {
    hide Kind, Contains, Line, Header;
    KindFacts();
    if c in t { RemoveJumpExact(t, c, p, h.subnetOf); }
  }

  lemma RemoveNetworkSafe(t: Table, c: string, h: Hyp)
    requires Safe(t, h) && IsNet(c)
    ensures Safe(RemoveNetwork(t, c).0, h) && RemoveNetwork(t, c).1 == Done
  {
    hide Kind, RemoveNetwork;
    KindFacts();
    RemoveNetworkExact(t, c, h.subnetOf);
  }

  lemma FlushDeleteSafe(t: Table, p: string, h: Hyp)
    requires Safe(t, h) && IsPol(p)
    ensures Safe(FlushDelete(t, p).0, h)
  {
    hide Kind, FlushDelete;
    FlushDeletePolicyExact(t, p, h.subnetOf);
  }

  lemma DropTwoSafe(t: Table, p: string, text: string, h: Hyp)
    requires Safe(t, h) && IsPol(p) && p in t
    requires h.paired ==> SubstringFree(h.universe) && h.universe(text)
    ensures Safe(t[p := DropTwo(p, t[p], text)], h)
  {
    hide Kind, DropTwo, SubstringFree;
    DropTwoKeepsInv(t, p, text, h.subnetOf);
    if h.paired {
      assert ChainOk(t, p);
      DropTwoIsWithoutSubnet(p, t[p], text, h.universe);
    }
  }

  // ---------- Handlers ----------

  lemma {:induction false} AddPeersSafe(env: Env, feed: Feed, s: State, namespace: string, chain: string,
                                        peers: seq<string>, skipBlank: bool, h: Hyp)
    requires Safe(s.table, h) && IsPol(chain) && FixedSubnets(env, feed, h)
    ensures Safe(AddPeers(feed, s, namespace, chain, peers, skipBlank).table, h)
  {
    hide Kind, InsertPeer, Trim, Safe, Cidr, NetName, SubnetOk;
    if peers != [] {
      var s1 := AddPeers(feed, s, namespace, chain, Init(peers), skipBlank);
      AddPeersSafe(env, feed, s, namespace, chain, Init(peers), skipBlank, h);
      var known := feed(s1.tick).networks;
      var key := (namespace, Trim(Last(peers)));
      if key in known { InsertPeerSafe(s1.table, chain, known[key], h); }
    }
  }

  lemma AddInfoSafe(env: Env, feed: Feed, s: State, name: string, namespace: string, subnet: string, info: PolicyInfo,
                    h: Hyp)
    requires Safe(s.table, h) && FixedSubnets(env, feed, h) && SubnetOk(h, subnet)
    requires Cidr(subnet) ==> subnet == h.subnetOf(NetName(env.md5, name, namespace))
    ensures Safe(AddInfo(env, feed, s, name, namespace, subnet, info).0.table, h)
  {
    hide Kind, InsertPeer, InsertFirst, AddNetwork, Safe, AddPeers, Cidr, FixedSubnets, SubnetOk;
    var chain := PolName(env.md5, info.name, namespace);
    match info.networks
    case Some(nets) =>
      var c := NetName(env.md5, name, namespace);
      AddNetworkSafe(s.table, c, subnet, h);
      var (t1, c1, _) := AddNetwork(s.table, c, subnet);
      InsertJumpSafe(t1, c1, chain, h);
      var t2 := InsertFirst(t1, c1, Jump(chain)).0;
      AddPeersSafe(env, feed, State(t2, s.tick), namespace, chain, Peers(nets, name), true, h);
    case None =>
      InsertPeerSafe(s.table, chain, subnet, h);
  }

  lemma {:induction false} AddInfosSafe(env: Env, feed: Feed, s: State, name: string, namespace: string,
                                        subnet: string, infos: seq<PolicyInfo>, h: Hyp)
    requires Safe(s.table, h) && FixedSubnets(env, feed, h) && SubnetOk(h, subnet)
    requires Cidr(subnet) ==> subnet == h.subnetOf(NetName(env.md5, name, namespace))
    ensures Safe(AddInfos(env, feed, s, name, namespace, subnet, infos).0.table, h)
  {
    hide Safe, AddInfo, NetName, Cidr, FixedSubnets, SubnetOk;
    if infos != [] {
      AddInfosSafe(env, feed, s, name, namespace, subnet, Init(infos), h);
      var s1 := AddInfos(env, feed, s, name, namespace, subnet, Init(infos)).0;
      AddInfoSafe(env, feed, s1, name, namespace, subnet, Last(infos), h);
    }
  }

  lemma NetworkAddSafe(env: Env, feed: Feed, s: State, name: string, namespace: string, h: Hyp)
    requires Safe(s.table, h) && FixedSubnets(env, feed, h)
    ensures Safe(NetworkAdd(env, feed, s, name, namespace).0.table, h)
  {
    hide Safe, AddInfos, ListPolicies, NetName, Trim, Cidr, SubnetOk;
    var known := feed(s.tick).networks;
    var key := (namespace, Trim(name));
    if key in known {
      AddInfosSafe(env, feed, State(s.table, s.tick + 2), Trim(name), namespace, known[key],
                   ListPolicies(env, feed(s.tick + 1), Trim(name), namespace), h);
    }
  }

  lemma PopulateKeySafe(env: Env, feed: Feed, s: State, namespace: string, chain: string, networks: Networks,
                        key: string, h: Hyp)
    requires Safe(s.table, h) && FixedSubnets(env, feed, h) && IsPol(chain)
    ensures Safe(PopulateKey(env, feed, s, namespace, chain, networks, key).table, h)
  {
    hide Kind, Safe, NetworkAdd, AddPeers, InsertFirst, NetName, Trim, FixedSubnets;
    var selector := Trim(key);
    var c := NetName(env.md5, selector, namespace);
    NetworkAddSafe(env, feed, s, selector, namespace, h);
    var s1 := NetworkAdd(env, feed, s, selector, namespace).0;
    AddPeersSafe(env, feed, s1, namespace, chain, Peers(networks, key), false, h);
    InsertJumpSafe(s.table, c, chain, h);
    var s2 := State(InsertFirst(s.table, c, Jump(chain)).0, s.tick);
    AddPeersSafe(env, feed, s2, namespace, chain, Peers(networks, key), false, h);
  }

  lemma {:induction false} PopulateSafe(env: Env, feed: Feed, s: State, namespace: string, chain: string,
                                        networks: Networks, keys: seq<string>, h: Hyp)
    requires Safe(s.table, h) && FixedSubnets(env, feed, h) && IsPol(chain)
    ensures Safe(Populate(env, feed, s, namespace, chain, networks, keys).table, h)
  {
    hide Kind, Safe, PopulateKey, FixedSubnets;
    if keys != [] {
      PopulateSafe(env, feed, s, namespace, chain, networks, Init(keys), h);
      var s1 := Populate(env, feed, s, namespace, chain, networks, Init(keys));
      PopulateKeySafe(env, feed, s1, namespace, chain, networks, Last(keys), h);
    }
  }

  lemma PolicyAddSafe(env: Env, feed: Feed, s: State, name: string, namespace: string, h: Hyp)
    requires Safe(s.table, h) && FixedSubnets(env, feed, h)
    ensures Safe(PolicyAdd(env, feed, s, name, namespace).0.table, h)
  {
    hide Kind, Safe, Populate, FixedSubnets, PolName, Parse, FindPolicy, ClearChain;
    var found := FindPolicy(feed(s.tick).policies, name, namespace);
    if found.Some? {
      var nets := Parse(env, found.value.annotation);
      if nets.Some? {
        var chain := PolName(env.md5, name, namespace);
        ClearPolicySafe(s.table, chain, h);
        var s1 := State(ClearChain(s.table, chain), s.tick + 1);
        PopulateSafe(env, feed, s1, namespace, chain, nets.value, feed(s1.tick).order(nets.value.Keys), h);
      }
    }
  }

  lemma PolicyUpdateSafe(env: Env, feed: Feed, s: State, name: string, namespace: string, h: Hyp)
    requires Safe(s.table, h) && FixedSubnets(env, feed, h)
    ensures Safe(PolicyUpdate(env, feed, s, name, namespace).0.table, h)
  {
    hide Kind, Populate, FixedSubnets, PolName, Parse, FindPolicy, ClearChain, SweepLines, Listing, Safe;
    var found := FindPolicy(feed(s.tick).policies, name, namespace);
    if found.Some? {
      var nets := Parse(env, found.value.annotation);
      if nets.Some? {
        var chain := PolName(env.md5, name, namespace);
        ClearPolicySafe(s.table, chain, h);
        var s1 := State(ClearChain(s.table, chain), s.tick + 1);
        if nets.value != map[] {
          PopulateSafe(env, feed, s1, namespace, chain, nets.value, feed(s1.tick).order(nets.value.Keys), h);
        } else if BASE in s1.table {
          SweepSafe(s1.table, chain, h);
        }
      }
    }
  }

  // ---------- The sweep ----------

  /** The sweep, in terms of the listed rules rather than their lines. */
  function SweepRules(t: Table, rules: seq<Rule>, chain: string): (Table, set<string>) {
    if rules == [] then (t, {})
    else
      var (t1, met) := SweepRules(t, Init(rules), chain);
      var c := Last(rules).target;
      if c !in met then (RemoveJump(t1, c, chain).0, met + {c}) else (t1, met)
  }

  lemma {:induction false} NetworkWordIs(words: seq<string>, target: string)
    requires target in words
    requires forall i :: 0 <= i < |words| ==> (Contains(words[i], NETWORK_PREFIX) <==> words[i] == target)
    ensures NetworkWord(words) == target
  {
    hide Contains;
    if Last(words) != target {
      assert words == Init(words) + [Last(words)];
      NetworkWordIs(Init(words), target);
    }
  }

  lemma BaseLineWord(t: Table, r: Rule)
    requires BaseRule(t, r)
    ensures Contains(Line(BASE, r), NETWORK_PREFIX) && NetworkWord(Split(Line(BASE, r), " ")) == r.target
  {
    hide Kind, Contains, Line, Named, Split, NetworkWord;
    KindFacts();
    SplitLineRecoversTarget(r);
    NetworkWordIs(LineWords(BASE, r), r.target);
    KindOfNamed(BASE);
    KindOfNamed(r.target);
    MentionsPrefix(BASE, r, NETWORK_PREFIX);
  }

  /** Reading the network chain off each line of the base chain visits exactly the rules' targets. */
  lemma {:induction false} SweepLinesAreRules(t0: Table, t: Table, chain: string, k: nat)
    requires Shape(t0) && k <= |t0[BASE]|
    ensures SweepLines(t, Listing(t0, BASE)[..k + 1], chain) == SweepRules(t, t0[BASE][..k], chain)
  {
    hide Kind, Contains, Line, Header, RemoveJump, Split, NetworkWord;
    var lines, rules := Listing(t0, BASE), t0[BASE];
    if k == 0 {
      BaseHeaderHasNoPrefix();
      assert Init(lines[..1]) == [] && Last(lines[..1]) == Header(BASE);
    } else {
      SweepLinesAreRules(t0, t, chain, k - 1);
      assert Init(lines[..k + 1]) == lines[..k] && Last(lines[..k + 1]) == lines[k] == Line(BASE, rules[k - 1]);
      assert Init(rules[..k]) == rules[..k - 1] && Last(rules[..k]) == rules[k - 1];
      BaseRuleOf(t0, rules[k - 1]);
      BaseLineWord(t0, rules[k - 1]);
    }
  }

  lemma BaseHeaderHasNoPrefix()
    ensures !Contains(Header(BASE), NETWORK_PREFIX)
  {
    PrefixFacts();
    HeaderMentions(BASE, NETWORK_PREFIX);
    PrefixInName(BASE, NETWORK_PREFIX);
  }

  lemma SweepIsSweepRules(t: Table, chain: string)
    requires Shape(t)
    ensures SweepLines(t, Listing(t, BASE), chain) == SweepRules(t, t[BASE], chain)
  {
    hide Kind, SweepLines, SweepRules, Line, Header;
    var n := |t[BASE]|;
    SweepLinesAreRules(t, t, chain, n);
    assert Listing(t, BASE)[..n + 1] == Listing(t, BASE);
    assert t[BASE][..n] == t[BASE];
  }

  lemma {:induction false} SweepRulesSafe(t: Table, rules: seq<Rule>, chain: string, h: Hyp)
    requires Safe(t, h) && IsPol(chain) && forall r :: r in rules ==> IsNet(r.target)
    ensures Safe(SweepRules(t, rules, chain).0, h)
  {
    hide Kind, Safe, RemoveJump;
    if rules != [] {
      assert Last(rules) in rules;
      SweepRulesSafe(t, Init(rules), chain, h);
      RemoveJumpSafe(SweepRules(t, Init(rules), chain).0, Last(rules).target, chain, h);
    }
  }

  lemma SweepSafe(t: Table, chain: string, h: Hyp)
    requires Safe(t, h) && IsPol(chain)
    ensures BASE in t && Safe(SweepLines(t, Listing(t, BASE), chain).0, h)
  {
    hide Kind, SweepLines, SweepRules, Listing;
    KindFacts();
    assert ChainOk(t, BASE);
    SweepIsSweepRules(t, chain);
    SweepRulesSafe(t, t[BASE], chain, h);
  }

  // ---------- Deletions ----------

  lemma {:induction false} RemoveJumpsSafe(env: Env, t: Table, namespace: string, chain: string, keys: seq<string>,
                                           h: Hyp)
    requires Safe(t, h) && IsPol(chain)
    ensures Safe(RemoveJumps(env, t, namespace, chain, keys), h)
  {
    hide Kind, Safe, RemoveJump, NetName, Trim;
    if keys != [] {
      RemoveJumpsSafe(env, t, namespace, chain, Init(keys), h);
      RemoveJumpSafe(RemoveJumps(env, t, namespace, chain, Init(keys)), NetName(env.md5, Trim(Last(keys)), namespace),
                     chain, h);
    }
  }

  lemma PolicyDeleteSafe(env: Env, feed: Feed, s: State, name: string, namespace: string, annotation: string,
                         h: Hyp)
    requires Safe(s.table, h)
    ensures Safe(PolicyDelete(env, feed, s, name, namespace, annotation).0.table, h)
  {
    hide Kind, Safe, RemoveJumps, FlushDelete, PolName, Parse;
    var nets := Parse(env, annotation);
    if nets.Some? {
      var chain := PolName(env.md5, name, namespace);
      var keys := feed(s.tick).order(nets.value.Keys);
      RemoveJumpsSafe(env, s.table, namespace, chain, keys, h);
      FlushDeleteSafe(RemoveJumps(env, s.table, namespace, chain, keys), chain, h);
    }
  }

  lemma DeleteInfoSafe(env: Env, t: Table, name: string, namespace: string, subnet: string, info: PolicyInfo, h: Hyp)
    requires Safe(t, h)
    requires h.paired ==> SubstringFree(h.universe) && h.universe(subnet)
    ensures Safe(DeleteInfo(env, t, name, namespace, subnet, info).0, h)
    ensures DeleteInfo(env, t, name, namespace, subnet, info).1
  {
    hide Kind, Safe, RemoveNetwork, DropTwo, NetName, PolName, SubstringFree;
    RemoveNetworkSafe(t, NetName(env.md5, name, namespace), h);
    var chain := PolName(env.md5, info.name, info.namespace);
    if chain in t { DropTwoSafe(t, chain, subnet, h); }
  }

  /** Deleting a logical network never fails on an invariant table. */
  lemma {:induction false} DeleteInfosSafe(env: Env, t: Table, name: string, namespace: string, subnet: string,
                                           infos: seq<PolicyInfo>, h: Hyp)
    requires Safe(t, h)
    requires h.paired ==> SubstringFree(h.universe) && h.universe(subnet)
    ensures Safe(DeleteInfos(env, t, name, namespace, subnet, infos).0, h)
    ensures DeleteInfos(env, t, name, namespace, subnet, infos).1
  {
    hide Safe, DeleteInfo, SubstringFree;
    if infos != [] {
      DeleteInfosSafe(env, t, name, namespace, subnet, Init(infos), h);
      DeleteInfoSafe(env, DeleteInfos(env, t, name, namespace, subnet, Init(infos)).0, name, namespace, subnet,
                     Last(infos), h);
    }
  }

  // ---------- Whole handlers ----------

  lemma HandleSafe(env: Env, feed: Feed, s: State, e: Event, h: Hyp)
    requires Safe(s.table, h) && FixedSubnets(env, feed, h) && EventOk(h, e)
    ensures Safe(Handle(env, feed, s, e).0.table, h)
  {
    hide Safe, FixedSubnets, PolicyAdd, PolicyUpdate, PolicyDelete;
    hide NetworkAdd, NetworkUpdate, DeleteInfos, ListPolicies;
    match e
    case PolicyAdded(name, namespace) => PolicyAddSafe(env, feed, s, name, namespace, h);
    case PolicyUpdated(name, namespace, _) => PolicyUpdateSafe(env, feed, s, name, namespace, h);
    case PolicyDeleted(name, namespace, annotation) => PolicyDeleteSafe(env, feed, s, name, namespace, annotation, h);
    case NetworkAdded(name, namespace) => NetworkAddSafe(env, feed, s, name, namespace, h);
    case NetworkUpdated(name, namespace) => NetworkUpdateIs(env, feed, s, name, namespace);
    case NetworkDeleted(name, namespace, subnet) =>
      DeleteInfosSafe(env, s.table, name, namespace, subnet, ListPolicies(env, feed(s.tick), name, namespace), h);
    case Unknown =>
  }

  lemma SyncSafe(env: Env, feed: Feed, s: State, key: string, h: Hyp)
    requires Safe(s.table, h) && FixedSubnets(env, feed, h) && KeyOk(env, h, key)
    ensures Safe(Sync(env, feed, s, key).0.table, h)
  {
    hide Safe, FixedSubnets, Handle, EventOf, EventOk;
    match env.decode(key)
    case None =>
    case Some(fields) => HandleSafe(env, feed, s, EventOf(fields), h);
  }

  lemma SafeHasShape(t: Table, h: Hyp)
    requires Safe(t, h)
    ensures Shape(t) && BASE in t
  {
    hide ChainOk;
  }

  lemma RestartKeepsPairs(t: Table, universe: string -> bool)
    requires Startable(t) && Paired(t, universe)
    ensures Paired(Restart(t).0, universe)
  {
    hide Kind;
    KindFacts();
  }

  /** A restart does not insert the FORWARD jump twice. */
  lemma RestartAgain(t: Table)
    requires FORWARD in t && Jump(BASE) in t[FORWARD]
    ensures Restart(t) == (ClearChain(t, BASE), Done)
  {
  }
}
