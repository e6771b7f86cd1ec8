/**
  Populating a policy chain selector by selector: the result is determined by
  the set of selectors, so the order in which the map is walked does not
  matter, and a policy ADD yields exactly the jumps and peer rules it asks for.
 */
module Populating {
  import opened Sequences
  import opened Text
  import opened Rules
  import opened Tables
  import opened Invariant
  import opened Preservation
  import opened Handlers
  import opened Safety
  import opened PolicyListing
  import opened Effects

  /** What stays the same while one policy's chain is populated. */
  datatype Context = Context(env: Env, world: World, namespace: string, chain: string, networks: Networks)

  /** One selector's share: the network chain it creates or extends, the base rules it needs, the peers it lets in. */
  datatype KeyEffect = KeyEffect(nets: map<string, seq<Rule>>, base: set<Rule>, gains: Gains)

  const NO_EFFECT: KeyEffect := KeyEffect(map[], {}, map[])

  function ChainOf(x: Context, key: string): string {
    NetName(x.env.md5, Trim(key), x.namespace)
  }

  /** The peers the policy lists under a selector. */
  function KeyGain(x: Context, key: string): Gains {
    map[x.chain := PeerSubnets(x.world, x.namespace, Peers(x.networks, key), false)]
  }

  /** The share of a selector whose network chain does not exist yet. */
  function MissingEffect(x: Context, t: Table, key: string): KeyEffect {
    var selector, c := Trim(key), ChainOf(x, key);
    if (x.namespace, selector) !in x.world.networks then NO_EFFECT
    else
      var subnet := x.world.networks[(x.namespace, selector)];
      var infos := ListPolicies(x.env, x.world, selector, x.namespace);
      var e := InfosEffect(x.env.md5, x.world, Pols(t), selector, x.namespace, subnet, infos);
      KeyEffect(
        if e.made then map[c := Content(e.jumps)] else map[],
        if e.made && Cidr(subnet) then {Rule(Dst(subnet), c), Rule(Src(subnet), c)} else {},
        if e.ok then Merge(e.gains, KeyGain(x, key)) else e.gains)
  }

  function PresentEffect(x: Context, t: Table, key: string): KeyEffect
    requires ChainOf(x, key) in t
  {
    var c := ChainOf(x, key);
    KeyEffect(map[c := if Jump(x.chain) in t[c] then t[c] else [Jump(x.chain)] + t[c]], {}, KeyGain(x, key))
  }

  function Effect(x: Context, t: Table, key: string): KeyEffect {
    if Trim(key) == "" then NO_EFFECT
    else if ChainOf(x, key) in t then PresentEffect(x, t, key)
    else MissingEffect(x, t, key)
  }

  ghost predicate KeyStep(t: Table, u: Table, k: KeyEffect) {
    && BASE in t && u.Keys == t.Keys + k.nets.Keys
    && (forall c :: c in k.nets ==> u[c] == k.nets[c])
    && (forall r :: r in u[BASE] <==> r in t[BASE] || r in k.base)
    && forall q :: q in t && q != BASE && q !in k.nets ==>
         if IsPol(q) then Grows(t[q], u[q], Gain(k.gains, q)) else u[q] == t[q]
  }

  // ---------- One selector ----------

  lemma BaseWithMembers(rules: seq<Rule>, c: string, subnet: string)
    ensures forall r :: r in BaseWith(rules, c, subnet) <==>
            r in rules || r == Rule(Dst(subnet), c) || r == Rule(Src(subnet), c)
  {
  }

  lemma GainedAfter(t: Table, u: Table, v: Table, c: string, subnet: string, e: NetEffect, g: Gains)
    requires After(t, u, c, subnet, e) && GainedOnly(u, v, g) && IsNet(c)
    ensures After(t, v, c, subnet, e.(gains := Merge(e.gains, g)))
  {
    hide Kind, Cidr, Content, BaseWith;
    KindFacts();
    var m := Merge(e.gains, g);
    forall q | q in t && q != BASE && q != c && IsPol(q) ensures Grows(t[q], v[q], Gain(m, q)) {
      assert Gain(m, q) == Gain(e.gains, q) + Gain(g, q);
      assert Grows(t[q], u[q], Gain(e.gains, q)) && Grows(u[q], v[q], Gain(g, q));
    }
  }

  lemma AfterIsKeyStep(t: Table, u: Table, c: string, subnet: string, e: NetEffect)
    requires After(t, u, c, subnet, e) && IsNet(c) && c !in t
    ensures KeyStep(t, u, KeyEffect(
      if e.made then map[c := Content(e.jumps)] else map[],
      if e.made && Cidr(subnet) then {Rule(Dst(subnet), c), Rule(Src(subnet), c)} else {},
      e.gains))
  {
    hide Kind, Cidr, Content, BaseWith;
    KindFacts();
    BaseWithMembers(t[BASE], c, subnet);
  }

  lemma MissingKeyEffect(x: Context, feed: Feed, s: State, key: string, h: Hyp)
    requires Steady(feed, x.world) && Safe(s.table, h) && FixedSubnets(x.env, feed, h) && IsPol(x.chain)
    requires Trim(key) != "" && ChainOf(x, key) !in s.table
    ensures KeyStep(s.table, PopulateKey(x.env, feed, s, x.namespace, x.chain, x.networks, key).table,
                    MissingEffect(x, s.table, key))
  {
    hide Kind, Cidr, Trim, NetName, After, KeyStep, AddInfos, InfosEffect, Pols;
    hide AddPeers, PeerSubnets, Safe, Reports, GainedOnly, SubnetOk, Content, Merge;
    var selector, c := Trim(key), ChainOf(x, key);
    TrimIdempotent(key);
    assert feed(s.tick).networks == x.world.networks;
    if (x.namespace, selector) !in x.world.networks {
      NoKeyStep(s.table, h);
    } else {
      var subnet := x.world.networks[(x.namespace, selector)];
      var infos := ListPolicies(x.env, x.world, selector, x.namespace);
      ReportsAnyOrder(x.env, feed(s.tick + 1), x.world, x.world.policies, selector, x.namespace);
      assert ListPolicies(x.env, feed(s.tick + 1), selector, x.namespace) == infos;
      var s2 := State(s.table, s.tick + 2);
      AddInfosEffect(x.env, feed, x.world, s2, selector, x.namespace, subnet, infos, h);
      var (s3, ok) := AddInfos(x.env, feed, s2, selector, x.namespace, subnet, infos);
      assert NetworkAdd(x.env, feed, s, selector, x.namespace) == (s3, ok);
      var e := InfosEffect(x.env.md5, x.world, Pols(s.table), selector, x.namespace, subnet, infos);
      if ok {
        AddPeersGains(feed, x.world, s3, x.namespace, x.chain, Peers(x.networks, key), false);
        var v := AddPeers(feed, s3, x.namespace, x.chain, Peers(x.networks, key), false).table;
        GainedAfter(s.table, s3.table, v, c, subnet, e, KeyGain(x, key));
        AfterIsKeyStep(s.table, v, c, subnet, e.(gains := Merge(e.gains, KeyGain(x, key))));
      } else {
        AfterIsKeyStep(s.table, s3.table, c, subnet, e);
      }
    }
  }

  lemma NoKeyStep(t: Table, h: Hyp)
    requires Safe(t, h)
    ensures KeyStep(t, t, NO_EFFECT)
  {
    hide Kind, ChainOk;
  }

  lemma PresentStep(t: Table, u: Table, v: Table, c: string, rules: seq<Rule>, g: Gains)
    requires BASE in t && IsNet(c) && c in t && u == t[c := rules] && GainedOnly(u, v, g)
    ensures KeyStep(t, v, KeyEffect(map[c := rules], {}, g))
  {
    hide Kind, Grows;
    KindFacts();
  }

  lemma PresentKeyEffect(x: Context, feed: Feed, s: State, key: string, h: Hyp)
    requires Steady(feed, x.world) && Safe(s.table, h) && IsPol(x.chain) && x.chain in s.table
    requires Trim(key) != "" && ChainOf(x, key) in s.table
    ensures KeyStep(s.table, PopulateKey(x.env, feed, s, x.namespace, x.chain, x.networks, key).table,
                    PresentEffect(x, s.table, key))
  {
    hide Kind, Trim, NetName, AddPeers, PeerSubnets, Safe, Steady, NetworkAdd, GainedOnly, KeyStep;
    SafeHasBase(s.table, h);
    var t, c := s.table, ChainOf(x, key);
    var (t1, e1) := InsertFirst(t, c, Jump(x.chain));
    AddPeersGains(feed, x.world, State(t1, s.tick), x.namespace, x.chain, Peers(x.networks, key), false);
    var rules := if Jump(x.chain) in t[c] then t[c] else [Jump(x.chain)] + t[c];
    assert t1 == t[c := rules] && e1 == Done;
    PresentStep(t, t1, AddPeers(feed, State(t1, s.tick), x.namespace, x.chain, Peers(x.networks, key), false).table,
                c, rules, KeyGain(x, key));
  }

  lemma PopulateKeyEffect(x: Context, feed: Feed, s: State, key: string, h: Hyp)
    requires Steady(feed, x.world) && Safe(s.table, h) && FixedSubnets(x.env, feed, h) && IsPol(x.chain) &&
             x.chain in s.table
    ensures KeyStep(s.table, PopulateKey(x.env, feed, s, x.namespace, x.chain, x.networks, key).table,
                    Effect(x, s.table, key))
  {
    hide Kind, Trim, ChainOf, KeyStep, Safe, FixedSubnets;
    hide Steady, MissingEffect, PresentEffect, AddPeers, NetworkAdd, InsertFirst;
    if Trim(key) == "" {
      NoKeyStep(s.table, h);
    } else if ChainOf(x, key) in s.table {
      PresentKeyEffect(x, feed, s, key, h);
    } else {
      MissingKeyEffect(x, feed, s, key, h);
    }
  }

  // ---------- All selectors ----------

  /** Selectors that stand for different networks have different chains. */
  ghost predicate DistinctChains(x: Context, keys: set<string>) {
    forall k, l :: k in keys && l in keys && Trim(k) != "" && Trim(l) != "" && ChainOf(x, k) == ChainOf(x, l) ==> k == l
  }

  /** The table after the selectors in `keys`, described from the table before. */
  ghost predicate Populated(x: Context, t: Table, u: Table, keys: set<string>) {
    BASE in t && BASE in u && NetsPopulated(x, t, u, keys) && BasePopulated(x, t, u, keys) &&
      PolsPopulated(x, t, u, keys)
  }

  ghost predicate NetsPopulated(x: Context, t: Table, u: Table, keys: set<string>) {
    && (forall c :: c in u <==> c in t || exists k :: k in keys && c in Effect(x, t, k).nets)
    && (forall k, c :: k in keys && c in Effect(x, t, k).nets ==> u[c] == Effect(x, t, k).nets[c])
    && forall c :: c in t && c != BASE && !IsPol(c) && (forall k :: k in keys ==> c !in Effect(x, t, k).nets) ==>
       u[c] == t[c]
  }

  ghost predicate BasePopulated(x: Context, t: Table, u: Table, keys: set<string>)
    requires BASE in t && BASE in u
  {
    forall r :: r in u[BASE] <==> r in t[BASE] || exists k :: k in keys && r in Effect(x, t, k).base
  }

  ghost predicate PolsPopulated(x: Context, t: Table, u: Table, keys: set<string>)
    requires NetsPopulated(x, t, u, keys)
  {
    forall q :: q in t && IsPol(q) ==>
      forall r :: r in u[q] <==> r in t[q] || exists k :: k in keys && AcceptsOneOf(r, Gain(Effect(x, t, k).gains, q))
  }

  lemma EffectNets(x: Context, t: Table, key: string)
    ensures forall c :: c in Effect(x, t, key).nets ==> Trim(key) != "" && c == ChainOf(x, key) && IsNet(c)
  {
    hide Kind, Trim, InfosEffect, Content, Merge, Reports, Pols, PeerSubnets, Cidr;
  }

  /** A selector's share depends only on its own chain and on which policy chains there are. */
  lemma EffectIsLocal(x: Context, t: Table, u: Table, key: string)
    requires Pols(t) == Pols(u)
    requires Trim(key) != "" ==> (ChainOf(x, key) in t <==> ChainOf(x, key) in u)
    requires Trim(key) != "" && ChainOf(x, key) in t ==> t[ChainOf(x, key)] == u[ChainOf(x, key)]
    ensures Effect(x, t, key) == Effect(x, u, key)
  {
    hide Kind, Trim, InfosEffect, Content, Merge, Reports, Pols, PeerSubnets, Cidr, ChainOf;
  }

  lemma PopulatedFrame(x: Context, t: Table, u: Table, keys: set<string>, key: string)
    requires Populated(x, t, u, keys) && key !in keys && DistinctChains(x, keys + {key})
    ensures Effect(x, u, key) == Effect(x, t, key)
  {
    hide Kind, Trim, ChainOf, Effect, AcceptsOneOf;
    KindFacts();
    forall k | k in keys
      ensures forall c :: c in Effect(x, t, k).nets ==> Trim(k) != "" && c == ChainOf(x, k) && IsNet(c)
    {
      EffectNets(x, t, k);
    }
    assert Pols(u) == Pols(t);
    assert IsNet(ChainOf(x, key)) by { ChainOfIsNet(x, key); }
    EffectIsLocal(x, t, u, key);
  }

  lemma ChainOfIsNet(x: Context, key: string)
    ensures IsNet(ChainOf(x, key))
  {
  }

  lemma NetsStep(x: Context, t: Table, u: Table, v: Table, keys: set<string>, key: string)
    requires BASE in t && NetsPopulated(x, t, u, keys) && key !in keys && DistinctChains(x, keys + {key})
    requires KeyStep(u, v, Effect(x, t, key))
    ensures NetsPopulated(x, t, v, keys + {key})
  {
    hide Kind, Trim, ChainOf, Effect, AcceptsOneOf, Grows;
    KindFacts();
    var k' := keys + {key};
    forall k | k in k'
      ensures forall c :: c in Effect(x, t, k).nets ==> Trim(k) != "" && c == ChainOf(x, k) && IsNet(c)
    {
      EffectNets(x, t, k);
    }
  }

  lemma PolsStep(x: Context, t: Table, u: Table, v: Table, keys: set<string>, key: string)
    requires NetsPopulated(x, t, u, keys) && PolsPopulated(x, t, u, keys) && NetsPopulated(x, t, v, keys + {key})
    requires KeyStep(u, v, Effect(x, t, key))
    ensures PolsPopulated(x, t, v, keys + {key})
  {
    hide Kind, Effect, AcceptsOneOf, NetsPopulated;
    KindFacts();
    EffectNets(x, t, key);
    var e := Effect(x, t, key);
    forall q, r | q in t && IsPol(q)
      ensures q in u && q in v
      ensures r in v[q] <==>
              r in t[q] || exists k :: k in keys + {key} && AcceptsOneOf(r, Gain(Effect(x, t, k).gains, q))
    {
      NetsKeep(x, t, u, keys, q);
      NetsKeep(x, t, v, keys + {key}, q);
      assert q != BASE && q !in e.nets && Grows(u[q], v[q], Gain(e.gains, q));
    }
  }

  lemma NetsKeep(x: Context, t: Table, u: Table, keys: set<string>, c: string)
    requires NetsPopulated(x, t, u, keys) && c in t
    ensures c in u
  {
    hide Effect, Kind;
  }

  lemma PopulatedStep(x: Context, t: Table, u: Table, v: Table, keys: set<string>, key: string)
    requires Populated(x, t, u, keys) && key !in keys && DistinctChains(x, keys + {key})
    requires KeyStep(u, v, Effect(x, t, key))
    ensures Populated(x, t, v, keys + {key})
  {
    hide Kind, Effect, NetsPopulated, PolsPopulated, DistinctChains, Grows;
    NetsStep(x, t, u, v, keys, key);
    PolsStep(x, t, u, v, keys, key);
  }

  lemma PopulatedNothing(x: Context, t: Table)
    requires BASE in t
    ensures Populated(x, t, t, {})
  {
    hide Kind, Effect;
  }

  lemma PopulatedKeepsPolicies(x: Context, t: Table, u: Table, keys: set<string>)
    requires Populated(x, t, u, keys)
    ensures forall c :: c in t ==> c in u
  {
    hide Kind, Effect;
  }

  function Elements(keys: seq<string>): set<string> {
    set k | k in keys
  }

  /** Populating works out, selector by selector, to the joint effect of the selectors on the table it started from. */
  lemma {:induction false} PopulateEffect(x: Context, feed: Feed, s: State, keys: seq<string>, h: Hyp)
    requires Steady(feed, x.world) && Safe(s.table, h) && FixedSubnets(x.env, feed, h) && IsPol(x.chain) &&
             x.chain in s.table
    requires NoDup(keys) && DistinctChains(x, Elements(keys))
    ensures Populated(x, s.table, Populate(x.env, feed, s, x.namespace, x.chain, x.networks, keys).table,
                      Elements(keys))
  {
    hide Kind, Trim, ChainOf, Safe, FixedSubnets, Steady, PopulateKey, Populated, Effect;
    if keys == [] {
      SafeHasBase(s.table, h);
      PopulatedNothing(x, s.table);
      assert Elements(keys) == {};
    } else {
      var before, key := Init(keys), Last(keys);
      assert Elements(keys) == Elements(before) + {key} && key !in Elements(before);
      PopulateEffect(x, feed, s, before, h);
      PopulateSafe(x.env, feed, s, x.namespace, x.chain, x.networks, before, h);
      var s1 := Populate(x.env, feed, s, x.namespace, x.chain, x.networks, before);
      PopulatedFrame(x, s.table, s1.table, Elements(before), key);
      PopulatedKeepsPolicies(x, s.table, s1.table, Elements(before));
      PopulateKeyEffect(x, feed, s1, key, h);
      PopulatedStep(x, s.table, s1.table, PopulateKey(x.env, feed, s1, x.namespace, x.chain, x.networks, key).table,
                    Elements(before), key);
    }
  }

  lemma SafeHasBase(t: Table, h: Hyp)
    requires Safe(t, h)
    ensures BASE in t
  {
    hide Kind, ChainOk;
  }

  // ---------- Order independence ----------

  /** The same chains; network chains alike, the base chain and each policy chain with the same set of rules. */
  ghost predicate SameSets(t: Table, u: Table) {
    && t.Keys == u.Keys
    && forall c :: c in t ==> if c == BASE || IsPol(c) then (forall r :: r in t[c] <==> r in u[c]) else t[c] == u[c]
  }

  /**
    Two runs over the same objects that walk the networks map in different
    orders, here and inside every listing, end in tables with the same rules.
   */
  lemma PopulateInAnyOrder(x: Context, feed1: Feed, feed2: Feed, s1: State, s2: State, keys1: seq<string>,
                           keys2: seq<string>, h: Hyp)
    requires Steady(feed1, x.world) && FixedSubnets(x.env, feed1, h) && Steady(feed2, x.world) &&
             FixedSubnets(x.env, feed2, h)
    requires s1.table == s2.table && Safe(s1.table, h) && IsPol(x.chain) && x.chain in s1.table
    requires Enumerates(keys1, x.networks.Keys) && Enumerates(keys2, x.networks.Keys) &&
             DistinctChains(x, x.networks.Keys)
    ensures SameSets(Populate(x.env, feed1, s1, x.namespace, x.chain, x.networks, keys1).table,
                     Populate(x.env, feed2, s2, x.namespace, x.chain, x.networks, keys2).table)
  {
    hide Kind, Trim, ChainOf, Safe, FixedSubnets, Steady, Populate, Effect, Populated;
    assert Elements(keys1) == x.networks.Keys == Elements(keys2);
    PopulateEffect(x, feed1, s1, keys1, h);
    PopulateEffect(x, feed2, s2, keys2, h);
    PopulatedOnce(x, s1.table,
                  Populate(x.env, feed1, s1, x.namespace, x.chain, x.networks, keys1).table,
                  Populate(x.env, feed2, s2, x.namespace, x.chain, x.networks, keys2).table, x.networks.Keys);
  }

  lemma PopulatedOnce(x: Context, t: Table, u: Table, v: Table, keys: set<string>)
    requires Populated(x, t, u, keys) && Populated(x, t, v, keys)
    ensures SameSets(u, v)
  {
    hide Kind, Effect, AcceptsOneOf;
    KindFacts();
    forall k | k in keys ensures forall c :: c in Effect(x, t, k).nets ==> IsNet(c) {
      EffectNets(x, t, k);
    }
  }
}
