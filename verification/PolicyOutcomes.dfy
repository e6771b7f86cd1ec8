/**
  What a policy ADD, and an UPDATE with selectors, achieve: the whole table
  afterwards, told from the annotation's entries and the known subnets.
 */
module PolicyOutcomes {
  import opened Options
  import opened Sequences
  import opened Text
  import opened Rules
  import opened Tables
  import opened Invariant
  import opened Preservation
  import opened Handlers
  import opened Frames
  import opened Safety
  import opened PolicyListing
  import opened Membership
  import opened Effects
  import opened Populating
  import opened Exactness
  import opened Outcomes
  import opened Runs

  // ---------- Finding the policy ----------

  /** The lister finds the first policy with the name in the namespace, and none iff there is none. */
  lemma {:induction false} FindPolicyMeans(policies: seq<PolicyObject>, name: string, namespace: string)
    ensures FindPolicy(policies, name, namespace).None? <==>
            forall i :: 0 <= i < |policies| ==> policies[i].name != name || policies[i].namespace != namespace
    ensures FindPolicy(policies, name, namespace).Some? ==>
              exists i :: 0 <= i < |policies| && policies[i] == FindPolicy(policies, name, namespace).value
                       && policies[i].name == name && policies[i].namespace == namespace
                       && forall j :: 0 <= j < i ==> policies[j].name != name || policies[j].namespace != namespace
  {
    if policies != [] && !(policies[0].name == name && policies[0].namespace == namespace) {
      var rest := policies[1..];
      FindPolicyMeans(rest, name, namespace);
      assert forall i :: 1 <= i < |policies| ==> policies[i] == rest[i - 1];
      if FindPolicy(rest, name, namespace).Some? {
        var i :| 0 <= i < |rest| && rest[i] == FindPolicy(rest, name, namespace).value
              && rest[i].name == name && rest[i].namespace == namespace
              && forall j :: 0 <= j < i ==> rest[j].name != name || rest[j].namespace != namespace;
        assert policies[i + 1] == rest[i];
        forall j | 0 <= j < i + 1 ensures policies[j].name != name || policies[j].namespace != namespace {
          if j > 0 { assert policies[j] == rest[j - 1]; }
        }
      }
    }
  }

  /** An UPDATE of a policy that has selectors does what an ADD does. */
  lemma UpdateWithSelectorsIsAdd(env: Env, feed: Feed, s: State, name: string, namespace: string)
    requires var found := FindPolicy(feed(s.tick).policies, name, namespace);
             found.Some? && Parse(env, found.value.annotation).Some? &&
               Parse(env, found.value.annotation).value != map[]
    ensures PolicyUpdate(env, feed, s, name, namespace) == PolicyAdd(env, feed, s, name, namespace)
  {
    hide FindPolicy, Parse, Populate, SweepLines, Listing, PolName;
  }

  // ---------- The selected networks ----------

  /** The network is selected and known, and its chain does not exist yet. */
  ghost predicate Created(x: Context, t: Table, k: string) {
    k in x.networks && ChainOf(x, k) !in t && (x.namespace, k) in x.world.networks
  }

  function SubnetOf(x: Context, k: string): string {
    if (x.namespace, k) in x.world.networks then x.world.networks[(x.namespace, k)] else ""
  }

  /** The share of a selected network in the base chain, and in the chains of other policies. */
  lemma OtherShare(x: Context, t: Table, p: PolicyObject, k: string, q: string, sub: string)
    requires PlainPolicy(x, t, p) && k in x.networks && x.chain in t && IsPol(x.chain)
    requires AllLiteral(x.env, x.world.policies, x.namespace) && ValidOrder(x.world.order)
    ensures Effect(x, t, k).base ==
            if Created(x, t, k) then {Rule(Dst(SubnetOf(x, k)), ChainOf(x, k)),
                                      Rule(Src(SubnetOf(x, k)), ChainOf(x, k))} else {}
    ensures q != x.chain ==>
              (sub in Gain(Effect(x, t, k).gains, q) <==>
               Created(x, t, k) && SomeGives(x.env, x.world, k, x.namespace, SubnetOf(x, k), q, sub))
  {
    hide Kind, Cidr, PolName, ChainOf, InfosEffect, Reports, PeerSubnets, LastSelecting, Parse, Literal, DistinctChains;
    hide SomeGives, AllLiteral, ValidOrder, Content, Trim;
    if Created(x, t, k) {
      ListedAreOwnOrPeer(x, t, p, k);
      var infos := ListPolicies(x.env, x.world, k, x.namespace);
      var own := SubnetOf(x, k);
      OwnGain(x, Pols(t), k, own, infos);
      InfosEffectJumps(x.env.md5, x.world, Pols(t), k, x.namespace, own, infos);
      GainsAreGiven(x.env, x.world, Pols(t), k, x.namespace, own, q, sub);
      var e := InfosEffect(x.env.md5, x.world, Pols(t), k, x.namespace, own, infos);
      assert Gain(Merge(e.gains, KeyGain(x, k)), q) == Gain(e.gains, q) + Gain(KeyGain(x, k), q);
      assert Effect(x, t, k) == MissingEffect(x, t, k);
    }
  }

  // ---------- The whole table ----------

  /** The policy's own peers under its reachable selectors, as its entries list them. */
  ghost predicate OwnPeer(x: Context, t: Table, p: PolicyObject, sub: string) {
    exists k, peer :: Selects(x.env, p, k) && Reachable(x, t, k)
                   && LetsIn(x.env, p, k, peer) && Resolves(x.world, x.namespace, peer, sub)
  }

  lemma OwnPeers(x: Context, t: Table, p: PolicyObject, r: Rule)
    requires p.annotation != "" && Parse(x.env, p.annotation) == Some(x.networks)
    ensures (exists k :: k in x.networks && Reachable(x, t, k)
                      && AcceptsOneOf(r, PeerSubnets(x.world, x.namespace, x.networks[k], false))) <==>
            exists sub :: OwnPeer(x, t, p, sub) && (r == AcceptFrom(sub) || r == AcceptTo(sub))
  {
    hide Reachable, PeerSubnets, Selects, LetsIn, Resolves, Parse, Trim, AcceptsOneOf;
    if k :| k in x.networks && Reachable(x, t, k)
            && AcceptsOneOf(r, PeerSubnets(x.world, x.namespace, x.networks[k], false)) {
      AcceptsMeans(r, PeerSubnets(x.world, x.namespace, x.networks[k], false));
      var sub :| sub in PeerSubnets(x.world, x.namespace, x.networks[k], false) &&
        (r == AcceptFrom(sub) || r == AcceptTo(sub));
      ListedPeer(x, p, k, sub);
      SelectsIsParsed(x.env, p, k);
      assert OwnPeer(x, t, p, sub);
    }
    if sub :| OwnPeer(x, t, p, sub) && (r == AcceptFrom(sub) || r == AcceptTo(sub)) {
      var k, peer :| Selects(x.env, p, k) && Reachable(x, t, k)
                  && LetsIn(x.env, p, k, peer) && Resolves(x.world, x.namespace, peer, sub);
      SelectsIsParsed(x.env, p, k);
      ListedPeer(x, p, k, sub);
      AcceptsMeans(r, PeerSubnets(x.world, x.namespace, x.networks[k], false));
    }
  }

  lemma ListedPeer(x: Context, p: PolicyObject, k: string, sub: string)
    requires Parse(x.env, p.annotation) == Some(x.networks) && k in x.networks
    ensures sub in PeerSubnets(x.world, x.namespace, x.networks[k], false) <==>
            exists peer :: LetsIn(x.env, p, k, peer) && Resolves(x.world, x.namespace, peer, sub)
  {
    hide PeerSubnets, LetsIn, Resolves, Parse, Trim;
    var peers := x.networks[k];
    assert Peers(x.networks, k) == peers;
    PeerSubnetsMean(x.world, x.namespace, peers, false, sub);
    KeysAreNamed(x.env, p);
    if j :| 0 <= j < |peers| && Resolves(x.world, x.namespace, Trim(peers[j]), sub) {
      assert IsPeer(x.networks, k, Trim(peers[j]));
      IsPeerMeans(x.env, p, k, Trim(peers[j]));
      assert LetsIn(x.env, p, k, Trim(peers[j]));
    }
    if peer :| LetsIn(x.env, p, k, peer) && Resolves(x.world, x.namespace, peer, sub) {
      IsPeerMeans(x.env, p, k, peer);
      assert IsPeer(x.networks, k, peer);
      var j :| 0 <= j < |peers| && Trim(peers[j]) == peer;
    }
  }

  /** The hypotheses shared by ADD and UPDATE. */
  ghost predicate Applies(x: Context, feed: Feed, s: State, p: PolicyObject, h: Hyp) {
    && Steady(feed, x.world) && Safe(s.table, h) && FixedSubnets(x.env, feed, h)
    && FindPolicy(x.world.policies, p.name, x.namespace) == Some(p) && PlainPolicy(x, s.table, p)
    && AllLiteral(x.env, x.world.policies, x.namespace)
  }

  /** The table that populating starts from. */
  function Cleared(x: Context, s: State): Table { ClearChain(s.table, x.chain) }

  lemma PolicyAddPopulated(x: Context, feed: Feed, s: State, p: PolicyObject, h: Hyp)
    requires Applies(x, feed, s, p, h)
    ensures var t, u := Cleared(x, s), PolicyAdd(x.env, feed, s, p.name, x.namespace).0.table;
            Populated(x, t, u, x.networks.Keys) && PlainPolicy(x, t, p) && x.chain in t && IsPol(x.chain)
    ensures BASE in s.table && ValidOrder(x.world.order) && p.annotation != ""
    ensures Parse(x.env, p.annotation) == Some(x.networks)
    ensures forall k :: IsNet(ChainOf(x, k)) && ChainOf(x, k) != x.chain
  {
    hide Kind, Trim, ChainOf, Safe, FixedSubnets, Populate, Populated, PlainPolicy, FindPolicy, Parse, DistinctChains;
    hide AllLiteral;
    KindFacts();
    var t := Cleared(x, s);
    var s1 := State(t, s.tick + 1);
    PlainPolicyFacts(x, s.table, p);
    PlainAnnotated(x, s.table, p);
    assert feed(s.tick).policies == x.world.policies;
    var keys := feed(s1.tick).order(x.networks.Keys);
    assert Enumerates(keys, x.networks.Keys) && Elements(keys) == x.networks.Keys;
    assert IsPol(x.chain);
    SafeHasBase(s.table, h);
    ClearPolicySafe(s.table, x.chain, h);
    PopulateEffect(x, feed, s1, keys, h);
    PlainPolicyCleared(x, s.table, p);
    forall k ensures IsNet(ChainOf(x, k)) && ChainOf(x, k) != x.chain { ChainOfIsNet(x, k); }
  }

  lemma CreatedCleared(x: Context, s: State, k: string)
    requires ChainOf(x, k) != x.chain
    ensures Created(x, Cleared(x, s), k) <==> Created(x, s.table, k)
    ensures ChainOf(x, k) in Cleared(x, s) <==> ChainOf(x, k) in s.table
    ensures ChainOf(x, k) in s.table ==> Cleared(x, s)[ChainOf(x, k)] == s.table[ChainOf(x, k)]
  {
    hide ChainOf;
  }

  /** Which chains there are, and what the network chains hold. */
  lemma PolicyAddChains(x: Context, feed: Feed, s: State, p: PolicyObject, h: Hyp)
    requires Applies(x, feed, s, p, h)
    ensures var t, u := s.table, PolicyAdd(x.env, feed, s, p.name, x.namespace).0.table;
            && (forall d :: d in u <==> d in t || d == x.chain || exists k :: Created(x, t, k) && d == ChainOf(x, k))
            && (forall k :: k in x.networks && ChainOf(x, k) in t ==>
                  var c := ChainOf(x, k);
                  c in u && u[c] == if Jump(x.chain) in t[c] then t[c] else [Jump(x.chain)] + t[c])
            && (forall k :: Created(x, t, k) ==> u[ChainOf(x, k)] == [Jump(x.chain), REJECT_ALL])
            && (forall d :: d in t && d != BASE && !IsPol(d) && (forall k :: k in x.networks ==> d != ChainOf(x, k)) ==>
                  u[d] == t[d])
  {
    hide Kind, Trim, ChainOf, Effect, PlainPolicy, Applies, PolicyAdd, PolsPopulated, BasePopulated, Cleared, Created;
    hide Parse, ValidOrder;
    PolicyAddPopulated(x, feed, s, p, h);
    var t, u := Cleared(x, s), PolicyAdd(x.env, feed, s, p.name, x.namespace).0.table;
    forall k | k in x.networks
      ensures ChainOf(x, k) in t <==> ChainOf(x, k) in s.table
      ensures ChainOf(x, k) in t ==> t[ChainOf(x, k)] == s.table[ChainOf(x, k)]
      ensures forall c :: c in Effect(x, t, k).nets <==>
              c == ChainOf(x, k) && (ChainOf(x, k) in t || Created(x, s.table, k))
      ensures ChainOf(x, k) in t ==>
                var c := ChainOf(x, k);
                Effect(x, t, k).nets[c] == if Jump(x.chain) in t[c] then t[c] else [Jump(x.chain)] + t[c]
      ensures Created(x, s.table, k) ==> Effect(x, t, k).nets[ChainOf(x, k)] == [Jump(x.chain), REJECT_ALL]
    {
      CreatedCleared(x, s, k);
      OwnNets(x, t, p, k);
    }
    CreatedAreSelected(x, s.table);
    ClearedChains(x, s);
  }

  lemma CreatedAreSelected(x: Context, t: Table)
    ensures forall k :: Created(x, t, k) ==> k in x.networks && ChainOf(x, k) !in t
  {
  }

  lemma ClearedChains(x: Context, s: State)
    ensures forall d :: d in Cleared(x, s) <==> d in s.table || d == x.chain
    ensures forall d :: d in s.table && d != x.chain ==> Cleared(x, s)[d] == s.table[d]
  {
  }

  /** What the base chain holds. */
  lemma PolicyAddBase(x: Context, feed: Feed, s: State, p: PolicyObject, h: Hyp)
    requires Applies(x, feed, s, p, h)
    ensures var t, u := s.table, PolicyAdd(x.env, feed, s, p.name, x.namespace).0.table;
            && BASE in t && BASE in u
            && forall r :: r in u[BASE] <==>
                 r in t[BASE] || exists k :: Created(x, t, k)
                                          && (r == Rule(Dst(SubnetOf(x, k)), ChainOf(x, k)) ||
                                              r == Rule(Src(SubnetOf(x, k)), ChainOf(x, k)))
  {
    hide Kind, Trim, ChainOf, Effect, PlainPolicy, PolicyAdd, PolsPopulated, NetsPopulated, Cleared, Created, SubnetOf;
    hide Parse, ValidOrder, AllLiteral, Steady, Safe, FixedSubnets, FindPolicy;
    KindFacts();
    PolicyAddPopulated(x, feed, s, p, h);
    var t := Cleared(x, s);
    ClearedChains(x, s);
    CreatedAreSelected(x, s.table);
    forall k | k in x.networks
      ensures Effect(x, t, k).base ==
              if Created(x, s.table, k) then {Rule(Dst(SubnetOf(x, k)), ChainOf(x, k)),
                                              Rule(Src(SubnetOf(x, k)), ChainOf(x, k))}
              else {}
    {
      CreatedCleared(x, s, k);
      OtherShare(x, t, p, k, "", "");
    }
  }

  lemma OwnNets(x: Context, t: Table, p: PolicyObject, k: string)
    requires PlainPolicy(x, t, p) && k in x.networks && x.chain in t && IsPol(x.chain)
    ensures forall c :: c in Effect(x, t, k).nets <==> c == ChainOf(x, k) && (ChainOf(x, k) in t || Created(x, t, k))
    ensures ChainOf(x, k) in t ==>
              var c := ChainOf(x, k);
              c in Effect(x, t, k).nets &&
              Effect(x, t, k).nets[c] == if Jump(x.chain) in t[c] then t[c] else [Jump(x.chain)] + t[c]
    ensures Created(x, t, k) ==> Effect(x, t, k).nets[ChainOf(x, k)] == [Jump(x.chain), REJECT_ALL]
  {
    hide Kind, Cidr, PolName, ChainOf, InfosEffect, Reports;
    hide PeerSubnets, Parse, Literal, DistinctChains, Content, Merge;
    OwnShare(x, t, p, k);
    EffectNets(x, t, k);
    PlainKey(x, t, p, k);
  }

  lemma PlainKey(x: Context, t: Table, p: PolicyObject, k: string)
    requires PlainPolicy(x, t, p) && k in x.networks
    ensures k != "" && Trim(k) == k
  {
    hide Trim, Cidr, PolName, ChainOf, Parse, Literal, DistinctChains;
  }

  /** What the other policies' chains hold. */
  lemma PolicyAddElsewhere(x: Context, feed: Feed, s: State, p: PolicyObject, h: Hyp, q: string, r: Rule)
    requires Applies(x, feed, s, p, h) && q in s.table && IsPol(q) && q != x.chain
    ensures var t, u := s.table, PolicyAdd(x.env, feed, s, p.name, x.namespace).0.table;
            && q in u
            && (r in u[q] <==>
                r in t[q] ||
                exists k, sub :: Created(x, t, k) && SomeGives(x.env, x.world, k, x.namespace, SubnetOf(x, k), q, sub)
                              && (r == AcceptFrom(sub) || r == AcceptTo(sub)))
  {
    hide Kind, Trim, ChainOf, Effect, PlainPolicy, PolicyAdd, NetsPopulated, BasePopulated, Cleared, Created, SubnetOf;
    hide Parse, ValidOrder, AllLiteral, Steady, Safe, FixedSubnets, FindPolicy, AcceptsOneOf, SomeGives;
    PolicyAddPopulated(x, feed, s, p, h);
    var t, u := Cleared(x, s), PolicyAdd(x.env, feed, s, p.name, x.namespace).0.table;
    ClearedChains(x, s);
    NetsKeep(x, t, u, x.networks.Keys, q);
    OthersGain(x, t, p, q, r);
    forall k ensures Created(x, t, k) <==> Created(x, s.table, k) { CreatedCleared(x, s, k); }
  }

  /** What the policy's own chain holds: exactly the rules of the peers it lists under reachable selectors. */
  lemma PolicyAddAccepts(x: Context, feed: Feed, s: State, p: PolicyObject, h: Hyp)
    requires Applies(x, feed, s, p, h)
    ensures var u := PolicyAdd(x.env, feed, s, p.name, x.namespace).0.table;
            && x.chain in u
            && forall r :: r in u[x.chain] <==>
                 exists sub :: OwnPeer(x, s.table, p, sub) && (r == AcceptFrom(sub) || r == AcceptTo(sub))
  {
    hide Kind, Trim, ChainOf, Safe, FixedSubnets, PeerSubnets, AcceptsOneOf, PlainPolicy, PolicyAdd;
    hide FindPolicy, Parse, DistinctChains, AllLiteral, OwnPeer, Reachable, Steady;
    PlainPolicyFacts(x, s.table, p);
    PlainAnnotated(x, s.table, p);
    PolicyAddExact(x, feed, s, p, h);
    var u := PolicyAdd(x.env, feed, s, p.name, x.namespace).0.table;
    forall r ensures r in u[x.chain] <==>
                     exists sub :: OwnPeer(x, s.table, p, sub) && (r == AcceptFrom(sub) || r == AcceptTo(sub))
    {
      OwnPeers(x, s.table, p, r);
    }
  }

  lemma PlainAnnotated(x: Context, t: Table, p: PolicyObject)
    requires PlainPolicy(x, t, p)
    ensures p.annotation != ""
  {
    hide Trim, ChainOf, Literal, Parse, DistinctChains, Cidr;
  }

  lemma OthersGain(x: Context, t: Table, p: PolicyObject, q: string, r: Rule)
    requires PlainPolicy(x, t, p) && x.chain in t && IsPol(x.chain) && q != x.chain
    requires AllLiteral(x.env, x.world.policies, x.namespace) && ValidOrder(x.world.order)
    ensures (exists k :: k in x.networks && AcceptsOneOf(r, Gain(Effect(x, t, k).gains, q))) <==>
            exists k, sub :: Created(x, t, k) && SomeGives(x.env, x.world, k, x.namespace, SubnetOf(x, k), q, sub)
                          && (r == AcceptFrom(sub) || r == AcceptTo(sub))
  {
    hide Kind, PlainPolicy, Effect, SomeGives, AllLiteral, ValidOrder, AcceptsOneOf, ChainOf;
    if k :| k in x.networks && AcceptsOneOf(r, Gain(Effect(x, t, k).gains, q)) {
      AcceptsMeans(r, Gain(Effect(x, t, k).gains, q));
      var sub :| sub in Gain(Effect(x, t, k).gains, q) && (r == AcceptFrom(sub) || r == AcceptTo(sub));
      OtherShare(x, t, p, k, q, sub);
    }
    if k, sub :| Created(x, t, k) && SomeGives(x.env, x.world, k, x.namespace, SubnetOf(x, k), q, sub)
                 && (r == AcceptFrom(sub) || r == AcceptTo(sub)) {
      OtherShare(x, t, p, k, q, sub);
      AcceptsMeans(r, Gain(Effect(x, t, k).gains, q));
    }
  }

  /**
    After an UPDATE the policy's chain holds exactly the rules of the peers that
    its new annotation lists under reachable selectors; those of the old one
    are gone.
   */
  lemma PolicyUpdateAccepts(x: Context, feed: Feed, s: State, p: PolicyObject, h: Hyp)
    requires Applies(x, feed, s, p, h) && x.networks != map[]
    ensures var (s', ok) := PolicyUpdate(x.env, feed, s, p.name, x.namespace);
            && ok && x.chain in s'.table
            && (forall r :: r in s'.table[x.chain] <==>
                  exists sub :: OwnPeer(x, s.table, p, sub) && (r == AcceptFrom(sub) || r == AcceptTo(sub)))
            && forall k :: Selects(x.env, p, k) && Reachable(x, s.table, k) ==>
                 ChainOf(x, k) in s'.table && Jump(x.chain) in s'.table[ChainOf(x, k)]
  {
    hide Kind, Trim, ChainOf, Safe, FixedSubnets, PeerSubnets, AcceptsOneOf, PlainPolicy, PolicyAdd, PolicyUpdate;
    hide FindPolicy, Parse, AllLiteral, OwnPeer, Reachable, Selects, SomeGives;
    PlainPolicyFacts(x, s.table, p);
    assert feed(s.tick).policies == x.world.policies;
    UpdateWithSelectorsIsAdd(x.env, feed, s, p.name, x.namespace);
    PolicyAddAccepts(x, feed, s, p, h);
    PolicyAddExact(x, feed, s, p, h);
    forall k ensures Selects(x.env, p, k) ==> k in x.networks { SelectsIsParsed(x.env, p, k); }
  }
}
