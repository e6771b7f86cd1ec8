/**
  What a policy ADD and a logical network ADD achieve: which jumps and peer
  rules are there afterwards, and what that means for packets.
 */
module Exactness {
  import opened Options
  import opened Sequences
  import opened Text
  import opened Rules
  import opened Tables
  import opened Invariant
  import opened Preservation
  import opened Handlers
  import opened Frames
  import opened Safety
  import opened PolicyListing
  import opened Membership
  import opened Effects
  import opened Populating
  import V = Verdict

  // ---------- Who is reported ----------

  /** An entry of the list speaks of a listed policy, and carries its networks iff it selects the name. */
  ghost predicate SpeaksOf(env: Env, info: PolicyInfo, q: PolicyObject, name: string) {
    && info.name == q.name
    && (info.networks.Some? <==> Selects(env, q, name))
    && (info.networks.Some? ==> info.networks == Parse(env, q.annotation))
  }

  lemma ReportSpeaksOf(env: Env, w: World, q: PolicyObject, name: string)
    requires name != ""
    ensures forall i :: 0 <= i < |Report(env, w, q, name)| ==> SpeaksOf(env, Report(env, w, q, name)[i], q, name)
  {
    hide Contains, CountHits, Parse, Selects;
    SelectsIsParsed(env, q, name);
  }

  ghost predicate SpokenFor(env: Env, info: PolicyInfo, policies: seq<PolicyObject>, name: string, namespace: string) {
    exists q :: q in policies && q.namespace == namespace && SpeaksOf(env, info, q, name)
  }

  lemma {:induction false} ReportsSpeakOf(env: Env, w: World, policies: seq<PolicyObject>, name: string,
                                          namespace: string)
    requires name != ""
    ensures forall i :: 0 <= i < |Reports(env, w, policies, name, namespace)| ==>
              SpokenFor(env, Reports(env, w, policies, name, namespace)[i], policies, name, namespace)
  {
    hide Contains, CountHits, Parse, Report, SpeaksOf;
    if policies != [] {
      ReportsSpeakOf(env, w, Init(policies), name, namespace);
      ReportSpeaksOf(env, w, Last(policies), name);
      var before, r := Reports(env, w, Init(policies), name, namespace), Reports(env, w, policies, name, namespace);
      assert Last(policies) in policies && forall q :: q in Init(policies) ==> q in policies;
      forall i | 0 <= i < |r| ensures SpokenFor(env, r[i], policies, name, namespace) {
        if i < |before| {
          assert r[i] == before[i] && SpokenFor(env, before[i], Init(policies), name, namespace);
        } else {
          assert r[i] == Report(env, w, Last(policies), name)[i - |before|];
        }
      }
    }
  }

  lemma {:induction false} SelectorIsReported(env: Env, w: World, policies: seq<PolicyObject>, q: PolicyObject,
                                              name: string, namespace: string)
    requires name != "" && q in policies && q.namespace == namespace && Selects(env, q, name) &&
             Literal(env, q.annotation)
    ensures PolicyInfo(q.name, namespace, Parse(env, q.annotation)) in Reports(env, w, policies, name, namespace)
  {
    hide Contains, CountHits, Parse, Report, Literal, Selects;
    if Last(policies) == q {
      SelectsIsParsed(env, q, name);
      FilterDropsNothing(env, w, q, name);
      assert Report(env, w, q, name) == [PolicyInfo(q.name, namespace, Parse(env, q.annotation))];
    } else {
      assert q in Init(policies);
      SelectorIsReported(env, w, Init(policies), q, name, namespace);
    }
  }

  // ---------- Only the last selecting policy survives in a refilled chain ----------

  lemma {:induction false} InfosEffectJumps(md5: string -> Digest, w: World, policies: set<string>, name: string,
                                            namespace: string, subnet: string, infos: seq<PolicyInfo>)
    ensures var e := InfosEffect(md5, w, policies, name, namespace, subnet, infos);
            && (e.ok ==> (e.made <==> LastSelecting(infos).Some?))
            && (e.ok && e.made && Cidr(subnet) ==>
                e.jumps == [PolName(md5, LastSelecting(infos).value.name, namespace)])
            && (e.ok && e.made && !Cidr(subnet) ==> e.jumps == [])
            && (e.ok <==> forall i :: 0 <= i < |infos| && infos[i].networks.Some? ==>
                PolName(md5, infos[i].name, namespace) in policies)
  {
    hide Cidr, PolName, PeerSubnets, Merge;
    if infos != [] {
      InfosEffectJumps(md5, w, policies, name, namespace, subnet, Init(infos));
      var i := |infos| - 1;
      assert forall j :: 0 <= j < i ==> Init(infos)[j] == infos[j];
      assert infos[i] == Last(infos);
    }
  }

  /** Both base rules of the network are there. */
  ghost predicate Served(t: Table, c: string, subnet: string)
    requires BASE in t
  {
    Rule(Dst(subnet), c) in t[BASE] && Rule(Src(subnet), c) in t[BASE]
  }

  /**
    Logical network ADD, for every table with a base chain and every feed.  It
    succeeds iff every selecting policy of the listing already has a chain.  If
    there is one and the subnet is well formed, the network's chain then holds
    the jump to the last selecting policy and REJECT, nothing else: each
    selecting policy flushes what the one before it had put there.  If it fails,
    or if the subnet is malformed, the chain holds REJECT only; and the base
    rules are there iff the subnet is well formed.
   */
  lemma NetworkAddKeepsLastSelector(env: Env, feed: Feed, s: State, name: string, namespace: string)
    requires BASE in s.table && "" !in s.table && (namespace, Trim(name)) in feed(s.tick).networks
    ensures var infos := ListPolicies(env, feed(s.tick + 1), Trim(name), namespace);
            var c := NetName(env.md5, Trim(name), namespace);
            var subnet := feed(s.tick).networks[(namespace, Trim(name))];
            var (s', ok) := NetworkAdd(env, feed, s, name, namespace);
            && Refilled(env.md5, s.table, s'.table, c, namespace, subnet, infos, ok)
            && (Served(s'.table, c, subnet) <==>
                Served(s.table, c, subnet) || (LastSelecting(infos).Some? && Cidr(subnet)))
  {
    hide Kind, Cidr, Trim, NetName, PolName, AddInfos, Reports, SelectorsHaveChains, BaseWith, LastSelecting;
    var infos := ListPolicies(env, feed(s.tick + 1), Trim(name), namespace);
    var subnet := feed(s.tick).networks[(namespace, Trim(name))];
    AddInfosRefill(env, feed, State(s.table, s.tick + 2), Trim(name), namespace, subnet, infos);
    BaseWithMembers(s.table[BASE], NetName(env.md5, Trim(name), namespace), subnet);
  }

  /** So a selecting policy has its jump iff its chain is that of the last one and the subnet is well formed. */
  lemma JumpSurvivesIffLast(env: Env, feed: Feed, s: State, name: string, namespace: string, info: PolicyInfo)
    requires BASE in s.table && "" !in s.table && (namespace, Trim(name)) in feed(s.tick).networks
    ensures var infos := ListPolicies(env, feed(s.tick + 1), Trim(name), namespace);
            var (s', ok) := NetworkAdd(env, feed, s, name, namespace);
            var c := NetName(env.md5, Trim(name), namespace);
            ok && info in infos && info.networks.Some? ==>
              LastSelecting(infos).Some? && c in s'.table &&
              (Jump(PolName(env.md5, info.name, namespace)) in s'.table[c] <==>
               Cidr(feed(s.tick).networks[(namespace, Trim(name))]) &&
               PolName(env.md5, info.name, namespace) == PolName(env.md5, LastSelecting(infos).value.name, namespace))
  {
    hide Kind, Cidr, Trim, NetName, Reports, NetworkAdd, SelectorsHaveChains, BaseWith;
    KindFacts();
    var infos := ListPolicies(env, feed(s.tick + 1), Trim(name), namespace);
    if info in infos && info.networks.Some? { SelectingHasLast(infos, info); }
    NetworkAddKeepsLastSelector(env, feed, s, name, namespace);
  }

  lemma {:induction false} SelectingHasLast(infos: seq<PolicyInfo>, info: PolicyInfo)
    requires info in infos && info.networks.Some?
    ensures LastSelecting(infos).Some?
  {
    if Last(infos).networks.None? {
      assert info in Init(infos);
      SelectingHasLast(Init(infos), info);
    }
  }

  // ---------- Policy ADD ----------

  /** The selected networks that can be served: their chain exists, or they are known. */
  predicate Reachable(x: Context, t: Table, key: string) {
    ChainOf(x, key) in t || (x.namespace, key) in x.world.networks
  }

  /** The hypotheses under which a policy ADD is exact. */
  ghost predicate PlainPolicy(x: Context, t: Table, p: PolicyObject) {
    && p in x.world.policies && p.namespace == x.namespace
    && x.chain == PolName(x.env.md5, p.name, x.namespace)
    && p.annotation != "" && Parse(x.env, p.annotation) == Some(x.networks) && Literal(x.env, p.annotation)
    // selectors carry no surrounding blanks, and stand for different chains
    && (forall k :: k in x.networks ==> k != "" && Trim(k) == k) && DistinctChains(x, x.networks.Keys)
    // the policy's chain name is its own
    && (forall q :: q in x.world.policies && q.namespace == x.namespace ==>
          PolName(x.env.md5, q.name, x.namespace) == x.chain ==> q == p)
    // no other policy selects a network whose chain is missing, and such networks have well-formed subnets
    && (forall k, q :: k in x.networks && ChainOf(x, k) !in t && q in x.world.policies && q.namespace == x.namespace ==>
          Selects(x.env, q, k) ==> q == p)
    && (forall k :: k in x.networks && (x.namespace, k) in x.world.networks ==>
          Cidr(x.world.networks[(x.namespace, k)]))
  }

  lemma {:induction false} BlankPeersAddNothing(w: World, namespace: string, peers: seq<string>)
    ensures PeerSubnets(w, namespace, peers, true) <= PeerSubnets(w, namespace, peers, false)
  {
    hide Trim, Cidr;
    if peers != [] { BlankPeersAddNothing(w, namespace, Init(peers)); }
  }

  /** Entries about one selecting policy and about others that only use the network as a peer. */
  ghost predicate OwnOrPeer(x: Context, infos: seq<PolicyInfo>) {
    forall i :: 0 <= i < |infos| ==>
      if infos[i].networks.Some?
      then infos[i].networks.value == x.networks && PolName(x.env.md5, infos[i].name, x.namespace) == x.chain
      else PolName(x.env.md5, infos[i].name, x.namespace) != x.chain
  }

  lemma {:induction false} OwnGain(x: Context, policies: set<string>, key: string, subnet: string,
                                   infos: seq<PolicyInfo>)
    requires OwnOrPeer(x, infos) && x.chain in policies
    ensures var e := InfosEffect(x.env.md5, x.world, policies, key, x.namespace, subnet, infos);
            e.ok && Gain(e.gains, x.chain) <= PeerSubnets(x.world, x.namespace, Peers(x.networks, key), true)
  {
    hide Cidr, PolName, PeerSubnets;
    if infos != [] {
      assert forall j :: 0 <= j < |infos| - 1 ==> Init(infos)[j] == infos[j];
      OwnGain(x, policies, key, subnet, Init(infos));
      var i := |infos| - 1;
      assert infos[i] == Last(infos);
      var a := InfosEffect(x.env.md5, x.world, policies, key, x.namespace, subnet, Init(infos));
      var b := InfoEffect(x.env.md5, x.world, policies, key, x.namespace, subnet, Last(infos));
      assert Gain(Merge(a.gains, b.gains), x.chain) == Gain(a.gains, x.chain) + Gain(b.gains, x.chain);
    }
  }

  lemma ListedAreOwnOrPeer(x: Context, t: Table, p: PolicyObject, key: string)
    requires PlainPolicy(x, t, p) && key in x.networks && ChainOf(x, key) !in t
    ensures var infos := ListPolicies(x.env, x.world, key, x.namespace);
            OwnOrPeer(x, infos) && LastSelecting(infos).Some? &&
              PolName(x.env.md5, LastSelecting(infos).value.name, x.namespace) == x.chain
  {
    hide Trim, Cidr, PolName, ChainOf, Literal, Parse, Reports, LastSelecting, DistinctChains, Selects;
    var infos := ListPolicies(x.env, x.world, key, x.namespace);
    ReportsSpeakOf(x.env, x.world, x.world.policies, key, x.namespace);
    forall i | 0 <= i < |infos|
      ensures if infos[i].networks.Some?
              then infos[i].networks.value == x.networks && PolName(x.env.md5, infos[i].name, x.namespace) == x.chain
              else PolName(x.env.md5, infos[i].name, x.namespace) != x.chain
    {
      assert SpokenFor(x.env, infos[i], x.world.policies, key, x.namespace);
      var q :| q in x.world.policies && q.namespace == x.namespace && SpeaksOf(x.env, infos[i], q, key);
      assert Selects(x.env, p, key) by { SelectsIsParsed(x.env, p, key); }
    }
    SelectsIsParsed(x.env, p, key);
    SelectorIsReported(x.env, x.world, x.world.policies, p, key, x.namespace);
    SelectingHasLast(infos, PolicyInfo(p.name, x.namespace, Parse(x.env, p.annotation)));
    LastSelectingIsIn(infos);
  }

  lemma {:induction false} LastSelectingIsIn(infos: seq<PolicyInfo>)
    ensures LastSelecting(infos).Some? ==>
              exists i :: 0 <= i < |infos| && infos[i] == LastSelecting(infos).value && infos[i].networks.Some?
  {
    if infos != [] && Last(infos).networks.None? {
      LastSelectingIsIn(Init(infos));
      if LastSelecting(infos).Some? {
        var i :| 0 <= i < |Init(infos)| && Init(infos)[i] == LastSelecting(infos).value &&
          Init(infos)[i].networks.Some?;
        assert infos[i] == Init(infos)[i];
      }
    } else if infos != [] {
      assert infos[|infos| - 1] == Last(infos);
    }
  }

  /** One selector's share in the policy's own chain: its resolvable peers if the network is reachable, else nothing. */
  lemma OwnShare(x: Context, t: Table, p: PolicyObject, key: string)
    requires PlainPolicy(x, t, p) && key in x.networks && x.chain in t && IsPol(x.chain)
    ensures Gain(Effect(x, t, key).gains, x.chain) ==
            if Reachable(x, t, key) then PeerSubnets(x.world, x.namespace, x.networks[key], false) else {}
    ensures Reachable(x, t, key) ==>
              && ChainOf(x, key) in Effect(x, t, key).nets && Jump(x.chain) in Effect(x, t, key).nets[ChainOf(x, key)]
              && (ChainOf(x, key) !in t ==> Effect(x, t, key).nets[ChainOf(x, key)] == [Jump(x.chain), REJECT_ALL])
  {
    hide Kind, Trim, PolName, ChainOf, InfosEffect, Reports, PeerSubnets, LastSelecting, Parse, Literal, DistinctChains;
    BlankPeersAddNothing(x.world, x.namespace, x.networks[key]);
    if ChainOf(x, key) !in t && (x.namespace, key) in x.world.networks {
      ListedAreOwnOrPeer(x, t, p, key);
      var infos := ListPolicies(x.env, x.world, key, x.namespace);
      var subnet := x.world.networks[(x.namespace, key)];
      OwnGain(x, Pols(t), key, subnet, infos);
      InfosEffectJumps(x.env.md5, x.world, Pols(t), key, x.namespace, subnet, infos);
      var e := InfosEffect(x.env.md5, x.world, Pols(t), key, x.namespace, subnet, infos);
      assert Gain(Merge(e.gains, KeyGain(x, key)), x.chain) == Gain(e.gains, x.chain) + Gain(KeyGain(x, key), x.chain);
      assert Effect(x, t, key) == MissingEffect(x, t, key);
      assert Content(e.jumps) == [Jump(x.chain), REJECT_ALL];
    }
  }

  /**
    Policy ADD is exact.  Every selected network that can be served jumps to
    the policy, and to nothing else if its chain is new; the policy's chain
    holds exactly the two rules of each known peer of those networks.
   */
  lemma PolicyAddExact(x: Context, feed: Feed, s: State, p: PolicyObject, h: Hyp)
    requires Steady(feed, x.world) && Safe(s.table, h) && FixedSubnets(x.env, feed, h)
    requires FindPolicy(x.world.policies, p.name, x.namespace) == Some(p) && PlainPolicy(x, s.table, p)
    ensures var (s', ok) := PolicyAdd(x.env, feed, s, p.name, x.namespace);
            && ok && Safe(s'.table, h)
            && (forall k :: k in x.networks && Reachable(x, s.table, k) ==>
                  && ChainOf(x, k) in s'.table && Jump(x.chain) in s'.table[ChainOf(x, k)]
                  && (ChainOf(x, k) !in s.table ==> s'.table[ChainOf(x, k)] == [Jump(x.chain), REJECT_ALL]))
            && x.chain in s'.table
            && forall r :: r in s'.table[x.chain] <==>
                 exists k :: k in x.networks && Reachable(x, s.table, k)
                          && AcceptsOneOf(r, PeerSubnets(x.world, x.namespace, x.networks[k], false))
  {
    hide Kind, Trim, ChainOf, Safe, FixedSubnets, Populate, Effect;
    hide PeerSubnets, AcceptsOneOf, PlainPolicy, FindPolicy, Parse, DistinctChains;
    var t := ClearChain(s.table, x.chain);
    var s1 := State(t, s.tick + 1);
    PlainPolicyFacts(x, s.table, p);
    assert feed(s.tick).policies == x.world.policies;
    var keys := feed(s1.tick).order(x.networks.Keys);
    assert Enumerates(keys, x.networks.Keys);
    assert Elements(keys) == x.networks.Keys;
    assert IsPol(x.chain);
    ClearPolicySafe(s.table, x.chain, h);
    PolicyAddSafe(x.env, feed, s, p.name, x.namespace, h);
    PopulateEffect(x, feed, s1, keys, h);
    var u := Populate(x.env, feed, s1, x.namespace, x.chain, x.networks, keys).table;
    PlainPolicyCleared(x, s.table, p);
    forall k | k in x.networks
      ensures Reachable(x, t, k) <==> Reachable(x, s.table, k)
      ensures Gain(Effect(x, t, k).gains, x.chain) ==
              if Reachable(x, t, k) then PeerSubnets(x.world, x.namespace, x.networks[k], false) else {}
      ensures Reachable(x, t, k) ==>
                && ChainOf(x, k) in u && Jump(x.chain) in u[ChainOf(x, k)]
                && (ChainOf(x, k) !in t ==> u[ChainOf(x, k)] == [Jump(x.chain), REJECT_ALL])
      ensures ChainOf(x, k) in t <==> ChainOf(x, k) in s.table
    {
      ChainOfIsNet(x, k);
      assert ChainOf(x, k) != x.chain;
      OwnShare(x, t, p, k);
    }
    assert PolicyAdd(x.env, feed, s, p.name, x.namespace) ==
           (Populate(x.env, feed, s1, x.namespace, x.chain, x.networks, keys), true);
    NothingAccepted();
  }

  lemma NothingAccepted()
    ensures forall r :: !AcceptsOneOf(r, {})
  {
  }

  lemma PlainPolicyFacts(x: Context, t: Table, p: PolicyObject)
    requires PlainPolicy(x, t, p)
    ensures x.chain == PolName(x.env.md5, p.name, x.namespace)
    ensures Parse(x.env, p.annotation) == Some(x.networks) && DistinctChains(x, x.networks.Keys)
  {
    hide Trim, ChainOf, Literal, Parse, DistinctChains, Cidr;
  }

  lemma PlainPolicyCleared(x: Context, t: Table, p: PolicyObject)
    requires PlainPolicy(x, t, p) && IsPol(x.chain)
    ensures PlainPolicy(x, ClearChain(t, x.chain), p)
  {
    hide Kind, Trim, ChainOf, Literal, Parse, DistinctChains, Cidr, PolName;
    forall k | k in x.networks ensures ChainOf(x, k) != x.chain { ChainOfIsNet(x, k); }
  }

  /**
    Policy UPDATE with selectors, for every table and every feed: each network
    chain keeps all it had, and gets the jump in front iff the policy selects
    it and the jump was not there.  So a jump from a network that the policy no
    longer selects stays.
   */
  lemma UpdateKeepsStaleJumps(env: Env, feed: Feed, s: State, name: string, namespace: string)
    requires var found := FindPolicy(feed(s.tick).policies, name, namespace);
             found.Some? && Parse(env, found.value.annotation).Some? &&
               Parse(env, found.value.annotation).value != map[]
    ensures var networks := Parse(env, FindPolicy(feed(s.tick).policies, name, namespace).value.annotation).value;
            var u := PolicyUpdate(env, feed, s, name, namespace).0.table;
            var keys := feed(s.tick + 1).order(networks.Keys);
            && Jumped(env.md5, s.table, u, namespace, PolName(env.md5, name, namespace), keys)
            && (ValidOrder(feed(s.tick + 1).order) ==>
                  forall c :: SelectedBy(env.md5, keys, namespace, c) <==>
                    exists k :: k in networks && Trim(k) != "" && NetName(env.md5, Trim(k), namespace) == c)
  {
    hide Kind, Populate, FindPolicy, Parse, SweepLines, Listing, PolName, SelectedBy, Trim, NetName;
    KindFacts();
    var networks := Parse(env, FindPolicy(feed(s.tick).policies, name, namespace).value.annotation).value;
    var chain := PolName(env.md5, name, namespace);
    var s1 := State(ClearChain(s.table, chain), s.tick + 1);
    var keys := feed(s1.tick).order(networks.Keys);
    PopulateJumps(env, feed, s1, namespace, chain, networks, keys);
    if ValidOrder(feed(s1.tick).order) {
      forall c
        ensures SelectedBy(env.md5, keys, namespace, c) <==>
                exists k :: k in networks && Trim(k) != "" && NetName(env.md5, Trim(k), namespace) == c
      {
        SelectedBySet(env.md5, keys, networks.Keys, namespace, c);
      }
    }
  }

  /** A known peer of some reachable selector sends or receives the packet. */
  ghost predicate FromOrToPeer(x: Context, t: Table, packet: V.Packet, inside: V.Subnets) {
    exists k, subnet ::
      && k in x.networks && Reachable(x, t, k) && subnet in PeerSubnets(x.world, x.namespace, x.networks[k], false)
      && (inside(subnet, packet.src) || inside(subnet, packet.dst))
  }

  /** The policy's chain accepts exactly the packets from or to its known peers. */
  lemma OwnChainMeaning(x: Context, t: Table, rules: seq<Rule>, packet: V.Packet, inside: V.Subnets)
    requires forall r :: r in rules <==>
               exists k :: k in x.networks && Reachable(x, t, k)
                        && AcceptsOneOf(r, PeerSubnets(x.world, x.namespace, x.networks[k], false))
    ensures V.SomePeerMatches(rules, packet, inside) <==> FromOrToPeer(x, t, packet, inside)
  {
    hide Reachable, PeerSubnets;
    if V.SomePeerMatches(rules, packet, inside) {
      var r :| r in rules && V.Matches(r.on, packet, inside);
      var k :| k in x.networks && Reachable(x, t, k)
            && AcceptsOneOf(r, PeerSubnets(x.world, x.namespace, x.networks[k], false));
      var subnet := r.on.subnet;
      assert inside(subnet, packet.src) || inside(subnet, packet.dst);
    }
    if FromOrToPeer(x, t, packet, inside) {
      var k, subnet :|
        && k in x.networks && Reachable(x, t, k) && subnet in PeerSubnets(x.world, x.namespace, x.networks[k], false)
        && (inside(subnet, packet.src) || inside(subnet, packet.dst));
      var r := if inside(subnet, packet.src) then AcceptFrom(subnet) else AcceptTo(subnet);
      assert AcceptsOneOf(r, PeerSubnets(x.world, x.namespace, x.networks[k], false));
      assert r in rules && V.Matches(r.on, packet, inside);
    }
  }

  /** A network chain admits a packet if the given policy does or one of the others does. */
  lemma AdmittedByOneOr(t: Table, rules: seq<Rule>, p: string, packet: V.Packet, inside: V.Subnets)
    requires p in t && IsPol(p) && Jump(p) in rules
    ensures V.Admitted(t, rules, packet, inside) <==>
            V.SomePeerMatches(t[p], packet, inside) || V.Admitted(t, Without(rules, p), packet, inside)
  {
    hide Kind, V.SomePeerMatches;
    WithoutMembers(rules, p);
    if V.SomePeerMatches(t[p], packet, inside) { assert Jump(p).target == p; }
  }

  /**
    What that means for packets.  A reachable network that decides on a packet
    after a policy ADD accepts it iff it comes from or goes to a known peer of
    the policy or another policy of the network admits it, and rejects it
    otherwise; if the network's chain was created here, there is no other.
   */
  lemma PolicyAddAdmitsPeers(x: Context, feed: Feed, s: State, p: PolicyObject, h: Hyp, key: string,
                             packet: V.Packet, inside: V.Subnets, depth: nat)
    requires Steady(feed, x.world) && Safe(s.table, h) && FixedSubnets(x.env, feed, h)
    requires FindPolicy(x.world.policies, p.name, x.namespace) == Some(p) && PlainPolicy(x, s.table, p)
    requires key in x.networks && Reachable(x, s.table, key) && depth >= 2
    ensures var t, c := PolicyAdd(x.env, feed, s, p.name, x.namespace).0.table, ChainOf(x, key);
            BASE in t && c in t &&
            var i, verdict := V.First(t[BASE], packet, inside), V.Eval(t, t[BASE], packet, inside, depth);
            (i < |t[BASE]| && t[BASE][i].target == c ==>
               && (verdict == V.Accepted || verdict == V.Rejected)
               && (verdict == V.Accepted <==>
                   FromOrToPeer(x, s.table, packet, inside) || V.Admitted(t, Without(t[c], x.chain), packet, inside))
               && (c !in s.table ==> (verdict == V.Accepted <==> FromOrToPeer(x, s.table, packet, inside))))
  {
    hide Kind, Trim, ChainOf, PolicyAdd, PeerSubnets, PlainPolicy;
    hide FindPolicy, Parse, Steady, FixedSubnets, V.Eval, ChainOk;
    hide FromOrToPeer, V.Admitted, Without;
    KindFacts();
    PlainPolicyFacts(x, s.table, p);
    PolicyAddExact(x, feed, s, p, h);
    var t, c := PolicyAdd(x.env, feed, s, p.name, x.namespace).0.table, ChainOf(x, key);
    V.GraphMeaning(t, packet, inside, depth);
    OwnChainMeaning(x, s.table, t[x.chain], packet, inside);
    assert IsPol(x.chain);
    AdmittedByOneOr(t, t[c], x.chain, packet, inside);
    if c !in s.table {
      assert t[c] == [Jump(x.chain), REJECT_ALL];
      NobodyElseAdmits(t, x.chain, packet, inside);
    }
  }

  lemma NobodyElseAdmits(t: Table, p: string, packet: V.Packet, inside: V.Subnets)
    requires IsPol(p)
    ensures !V.Admitted(t, Without([Jump(p), REJECT_ALL], p), packet, inside)
  {
    hide Kind, V.SomePeerMatches;
    KindFacts();
    WithoutMembers([Jump(p), REJECT_ALL], p);
  }

  lemma SameSetsGiveVerdict(t: Table, u: Table, packet: V.Packet, inside: V.Subnets, depth: nat)
    requires Shape(t) && Shape(u) && depth >= 2 && SameSets(t, u) && V.Undisputed(t, packet, inside)
    ensures V.Eval(t, t[BASE], packet, inside, depth) == V.Eval(u, u[BASE], packet, inside, depth)
  {
    hide Kind, ChainOk, V.Eval, V.Undisputed;
    KindFacts();
    V.BaseOrderIsIrrelevant(t, u, packet, inside, depth);
  }

  /**
    Two runs that walk the networks map in different orders give the same
    verdict on every packet on which the networks that claim it decide alike,
    so on every packet that only one network claims.
   */
  lemma PopulateGivesVerdict(x: Context, feed1: Feed, feed2: Feed, s1: State, s2: State, keys1: seq<string>,
                             keys2: seq<string>, h: Hyp, packet: V.Packet, inside: V.Subnets, depth: nat)
    requires Steady(feed1, x.world) && FixedSubnets(x.env, feed1, h)
    requires Steady(feed2, x.world) && FixedSubnets(x.env, feed2, h)
    requires s1.table == s2.table && Safe(s1.table, h) && IsPol(x.chain) && x.chain in s1.table
    requires Enumerates(keys1, x.networks.Keys) && Enumerates(keys2, x.networks.Keys)
    requires DistinctChains(x, x.networks.Keys) && depth >= 2
    ensures var t := Populate(x.env, feed1, s1, x.namespace, x.chain, x.networks, keys1).table;
            var u := Populate(x.env, feed2, s2, x.namespace, x.chain, x.networks, keys2).table;
            && Shape(t) && Shape(u)
            && (V.Undisputed(t, packet, inside) ==>
                  V.Eval(t, t[BASE], packet, inside, depth) == V.Eval(u, u[BASE], packet, inside, depth))
  {
    hide Kind, Safe, FixedSubnets, Steady, Populate, V.Eval, V.Undisputed, SameSets, DistinctChains, Shape;
    var t := Populate(x.env, feed1, s1, x.namespace, x.chain, x.networks, keys1).table;
    var u := Populate(x.env, feed2, s2, x.namespace, x.chain, x.networks, keys2).table;
    PopulateInAnyOrder(x, feed1, feed2, s1, s2, keys1, keys2, h);
    PopulateSafe(x.env, feed1, s1, x.namespace, x.chain, x.networks, keys1, h);
    PopulateSafe(x.env, feed2, s2, x.namespace, x.chain, x.networks, keys2, h);
    SafeHasShape(t, h);
    SafeHasShape(u, h);
    if V.Undisputed(t, packet, inside) { SameSetsGiveVerdict(t, u, packet, inside, depth); }
  }
}
