/**
  While the cached objects hold still, what populating a policy chain does to
  the table: exactly, chain by chain, and in terms of the table it starts from.
  Policy chains and the base chain are described by their sets of rules, the
  network chains by their contents.
 */
module Effects {
  import opened Options
  import opened Sequences
  import opened Text
  import opened Rules
  import opened Tables
  import opened Invariant
  import opened Preservation
  import opened Handlers
  import opened Safety
  import opened PolicyListing

  /** The caches show the same objects at every read; only enumeration orders may differ. */
  ghost predicate Steady(feed: Feed, w: World) {
    && ValidOrder(w.order)
    && forall n: nat :: feed(n).policies == w.policies && feed(n).networks == w.networks && ValidOrder(feed(n).order)
  }

  // ---------- Peers ----------

  /** Subnets gained per policy chain. */
  type Gains = map<string, set<string>>

  function Gain(g: Gains, q: string): set<string> {
    if q in g then g[q] else {}
  }

  function Merge(g: Gains, h: Gains): Gains {
    map q | q in g.Keys + h.Keys :: Gain(g, q) + Gain(h, q)
  }

  function PeerSubnet(w: World, namespace: string, peer: string, skipBlank: bool): set<string> {
    var key := (namespace, Trim(peer));
    if (skipBlank && key.1 == "") || key !in w.networks || !Cidr(w.networks[key]) then {}
    else {w.networks[key]}
  }

  /** The subnets of the peers that resolve to a known network. */
  function PeerSubnets(w: World, namespace: string, peers: seq<string>, skipBlank: bool): set<string> {
    if peers == [] then {}
    else PeerSubnets(w, namespace, Init(peers), skipBlank) + PeerSubnet(w, namespace, Last(peers), skipBlank)
  }

  predicate AcceptsOneOf(r: Rule, subnets: set<string>) {
    r.target == ACCEPT && !r.on.Any? && r.on.subnet in subnets
  }

  ghost predicate Grows(before: seq<Rule>, after: seq<Rule>, subnets: set<string>) {
    forall r :: r in after <==> r in before || AcceptsOneOf(r, subnets)
  }

  /** Policy chains have gained the accept rules of some subnets; nothing else has changed. */
  ghost predicate GainedOnly(t: Table, u: Table, g: Gains) {
    && u.Keys == t.Keys
    && forall q :: q in t ==> if IsPol(q) then Grows(t[q], u[q], Gain(g, q)) else u[q] == t[q]
  }

  lemma InsertPeerGains(t: Table, p: string, subnet: string)
    requires IsPol(p)
    ensures GainedOnly(t, InsertPeer(t, p, subnet).0, map[p := if Cidr(subnet) then {subnet} else {}])
  {
    hide Kind, Cidr;
    var u := InsertPeer(t, p, subnet).0;
    if p in t && Cidr(subnet) {
      assert forall r :: r in u[p] <==> r in t[p] || r == AcceptFrom(subnet) || r == AcceptTo(subnet);
      assert forall r :: AcceptsOneOf(r, {subnet}) <==> r == AcceptFrom(subnet) || r == AcceptTo(subnet);
    }
  }

  lemma GainedTwice(t: Table, u: Table, v: Table, g: Gains, h: Gains)
    requires GainedOnly(t, u, g) && GainedOnly(u, v, h)
    ensures GainedOnly(t, v, Merge(g, h))
  {
    hide Kind;
    forall q | q in t && IsPol(q) ensures Grows(t[q], v[q], Gain(Merge(g, h), q)) {
      assert Gain(Merge(g, h), q) == Gain(g, q) + Gain(h, q);
      assert Grows(t[q], u[q], Gain(g, q)) && Grows(u[q], v[q], Gain(h, q));
    }
  }

  lemma AddPeerGains(feed: Feed, w: World, s: State, namespace: string, p: string, peer: string, skipBlank: bool)
    requires Steady(feed, w) && IsPol(p)
    ensures GainedOnly(s.table, AddPeer(feed, s, namespace, p, peer, skipBlank).table,
                       map[p := PeerSubnet(w, namespace, peer, skipBlank)])
  {
    hide Kind, Trim, InsertPeer, Cidr, GainedOnly, ValidOrder;
    GainedNothing(s.table, p);
    var key := (namespace, Trim(peer));
    if key in w.networks { InsertPeerGains(s.table, p, w.networks[key]); }
  }

  lemma {:induction false} AddPeersGains(feed: Feed, w: World, s: State, namespace: string, p: string,
                                         peers: seq<string>, skipBlank: bool)
    requires Steady(feed, w) && IsPol(p)
    ensures GainedOnly(s.table, AddPeers(feed, s, namespace, p, peers, skipBlank).table,
                       map[p := PeerSubnets(w, namespace, peers, skipBlank)])
  {
    hide Kind, GainedOnly, Steady, AddPeer, PeerSubnet;
    if peers == [] {
      GainedNothing(s.table, p);
    } else {
      var s1 := AddPeers(feed, s, namespace, p, Init(peers), skipBlank);
      var g := map[p := PeerSubnets(w, namespace, Init(peers), skipBlank)];
      var h := map[p := PeerSubnet(w, namespace, Last(peers), skipBlank)];
      AddPeersGains(feed, w, s, namespace, p, Init(peers), skipBlank);
      AddPeerGains(feed, w, s1, namespace, p, Last(peers), skipBlank);
      GainedTwice(s.table, s1.table, AddPeer(feed, s1, namespace, p, Last(peers), skipBlank).table, g, h);
      assert Merge(g, h) == map[p := PeerSubnets(w, namespace, peers, skipBlank)];
    }
  }

  lemma GainedNothing(t: Table, p: string)
    ensures GainedOnly(t, t, map[p := {}])
  {
    hide Kind;
    forall q | q in t ensures Gain(map[p := {}], q) == {} {}
  }

  // ---------- Adding one logical network ----------

  /**
    What the listed policies do for a network: `ok` unless a selecting policy
    has no chain yet, `made` if the network chain was flushed and refilled,
    `jumps` what it then jumps to, and the peers let in on the way.
   */
  datatype NetEffect = NetEffect(ok: bool, made: bool, jumps: seq<string>, gains: Gains)

  function Combine(a: NetEffect, b: NetEffect): NetEffect {
    if !a.ok then a
    else NetEffect(b.ok, a.made || b.made, if b.made then b.jumps else a.jumps, Merge(a.gains, b.gains))
  }

  function InfoEffect(md5: string -> Digest, w: World, policies: set<string>, name: string, namespace: string,
                      subnet: string, info: PolicyInfo): NetEffect
  {
    var p := PolName(md5, info.name, namespace);
    match info.networks
    case None => NetEffect(true, false, [], map[p := if Cidr(subnet) then {subnet} else {}])
    case Some(nets) =>
      if p !in policies then NetEffect(false, true, [], map[])
      else
        NetEffect(true, true, if Cidr(subnet) then [p] else [],
                  map[p := PeerSubnets(w, namespace, Peers(nets, name), true)])
  }

  function InfosEffect(md5: string -> Digest, w: World, policies: set<string>, name: string, namespace: string,
                       subnet: string, infos: seq<PolicyInfo>): NetEffect
  {
    if infos == [] then NetEffect(true, false, [], map[])
    else Combine(InfosEffect(md5, w, policies, name, namespace, subnet, Init(infos)),
                 InfoEffect(md5, w, policies, name, namespace, subnet, Last(infos)))
  }

  function Pols(t: Table): set<string> {
    set q | q in t && IsPol(q)
  }

  /** Jumps in a refilled network chain, then REJECT. */
  function Content(jumps: seq<string>): seq<Rule> {
    if jumps == [] then [REJECT_ALL] else [Jump(jumps[0]), REJECT_ALL]
  }

  ghost predicate After(t: Table, u: Table, c: string, subnet: string, e: NetEffect) {
    && BASE in t && u.Keys == t.Keys + (if e.made then {c} else {})
    && (c in u ==> u[c] == if e.made then Content(e.jumps) else t[c])
    && u[BASE] == (if e.made && Cidr(subnet) then BaseWith(t[BASE], c, subnet) else t[BASE])
    && forall q :: q in t && q != BASE && q != c ==>
         if IsPol(q) then Grows(t[q], u[q], Gain(e.gains, q)) else u[q] == t[q]
  }

  /** A selecting policy: the chain is refilled, and jumps to the policy if that has a chain. */
  lemma RefillEffect(t: Table, c: string, p: string, subnet: string, subnetOf: string -> string)
    requires Inv(t, subnetOf) && IsNet(c) && IsPol(p) && (Cidr(subnet) ==> subnet == subnetOf(c))
    ensures var (t1, c1, _) := AddNetwork(t, c, subnet);
            var (t2, e2) := InsertFirst(t1, c1, Jump(p));
            && (e2.Fail? <==> p !in t)
            && After(t, t2, c, subnet, NetEffect(p in t, true, if p in t && Cidr(subnet) then [p] else [], map[]))
  {
    hide Kind, Cidr, AddNetwork, Inv, WithNetwork, BaseWith;
    KindFacts();
    InvHasChains(t, subnetOf);
    AddNetworkExact(t, c, subnet, subnetOf);
    WithNetworkMeans(t, c, subnet);
    assert [Jump(p)] + [REJECT_ALL] == [Jump(p), REJECT_ALL];
  }

  /** Peers let in afterwards come on top. */
  lemma AfterGains(t: Table, u: Table, v: Table, c: string, subnet: string, e: NetEffect, g: Gains)
    requires After(t, u, c, subnet, e) && e.gains == map[] && GainedOnly(u, v, g) && IsNet(c)
    ensures After(t, v, c, subnet, e.(gains := g))
  {
    hide Kind, Cidr, Content, BaseWith;
    KindFacts();
  }

  lemma AddInfoEffect(env: Env, feed: Feed, w: World, s: State, name: string, namespace: string, subnet: string,
                      info: PolicyInfo, subnetOf: string -> string)
    requires Steady(feed, w) && Inv(s.table, subnetOf)
    requires Cidr(subnet) ==> subnet == subnetOf(NetName(env.md5, name, namespace))
    ensures var (s1, ok) := AddInfo(env, feed, s, name, namespace, subnet, info);
            var e := InfoEffect(env.md5, w, Pols(s.table), name, namespace, subnet, info);
            ok == e.ok && After(s.table, s1.table, NetName(env.md5, name, namespace), subnet, e)
  {
    hide Kind, Cidr, InsertPeer, InsertFirst, AddNetwork, AddPeers, NetName;
    hide PolName, PeerSubnets, Inv, Steady, After, GainedOnly, Content;
    KindFacts();
    InvHasChains(s.table, subnetOf);
    var p := PolName(env.md5, info.name, namespace);
    var c := NetName(env.md5, name, namespace);
    AfterNothing(s.table, c, subnet);
    match info.networks
    case None =>
      InsertPeerGains(s.table, p, subnet);
      AfterGains(s.table, s.table, InsertPeer(s.table, p, subnet).0, c, subnet, NetEffect(true, false, [], map[]),
                 map[p := if Cidr(subnet) then {subnet} else {}]);
    case Some(nets) =>
      RefillEffect(s.table, c, p, subnet, subnetOf);
      var (t1, c1, _) := AddNetwork(s.table, c, subnet);
      var t2 := InsertFirst(t1, c1, Jump(p)).0;
      if p in s.table {
        AddPeersGains(feed, w, State(t2, s.tick), namespace, p, Peers(nets, name), true);
        AfterGains(s.table, t2, AddPeers(feed, State(t2, s.tick), namespace, p, Peers(nets, name), true).table, c,
                   subnet,
                   NetEffect(true, true, if Cidr(subnet) then [p] else [], map[]),
                   map[p := PeerSubnets(w, namespace, Peers(nets, name), true)]);
      }
  }

  lemma InvHasChains(t: Table, subnetOf: string -> string)
    requires Inv(t, subnetOf)
    ensures BASE in t && "" !in t
  {
  }

  lemma WithNetworkMeans(t: Table, c: string, subnet: string)
    requires BASE in t && c != BASE
    ensures WithNetwork(t, c, subnet).Keys == t.Keys + {c}
    ensures WithNetwork(t, c, subnet)[c] == [REJECT_ALL]
    ensures WithNetwork(t, c, subnet)[BASE] == BaseWith(t[BASE], c, subnet)
    ensures forall q :: q in t && q != BASE && q != c ==> WithNetwork(t, c, subnet)[q] == t[q]
  {
  }

  lemma AfterTwice(t: Table, u: Table, v: Table, c: string, subnet: string, a: NetEffect, b: NetEffect)
    requires a.ok && After(t, u, c, subnet, a) && After(u, v, c, subnet, b) && IsNet(c)
    ensures After(t, v, c, subnet, Combine(a, b))
  {
    hide Kind, Cidr, Content, BaseWith;
    KindFacts();
    BaseWithTwice(t[BASE], c, subnet);
    var g := Merge(a.gains, b.gains);
    forall q | q in t && q != BASE && q != c && IsPol(q) ensures Grows(t[q], v[q], Gain(g, q)) {
      assert Gain(g, q) == Gain(a.gains, q) + Gain(b.gains, q);
      assert Grows(t[q], u[q], Gain(a.gains, q)) && Grows(u[q], v[q], Gain(b.gains, q));
    }
  }

  lemma PolsAfter(t: Table, u: Table, c: string, subnet: string, e: NetEffect)
    requires After(t, u, c, subnet, e) && IsNet(c)
    ensures Pols(u) == Pols(t)
  {
    hide Kind;
  }

  lemma {:induction false} AddInfosEffect(env: Env, feed: Feed, w: World, s: State, name: string, namespace: string,
                                          subnet: string, infos: seq<PolicyInfo>, h: Hyp)
    requires Steady(feed, w) && Safe(s.table, h) && FixedSubnets(env, feed, h) && SubnetOk(h, subnet)
    requires Cidr(subnet) ==> subnet == h.subnetOf(NetName(env.md5, name, namespace))
    ensures var (s1, ok) := AddInfos(env, feed, s, name, namespace, subnet, infos);
            var e := InfosEffect(env.md5, w, Pols(s.table), name, namespace, subnet, infos);
            ok == e.ok && After(s.table, s1.table, NetName(env.md5, name, namespace), subnet, e)
  {
    hide Kind, Cidr, AddInfo, NetName, Steady, FixedSubnets, SubnetOk, After, InfoEffect, Pols;
    var c := NetName(env.md5, name, namespace);
    if infos == [] {
      AfterNothing(s.table, c, subnet);
    } else {
      AddInfosEffect(env, feed, w, s, name, namespace, subnet, Init(infos), h);
      AddInfosSafe(env, feed, s, name, namespace, subnet, Init(infos), h);
      var (s1, ok) := AddInfos(env, feed, s, name, namespace, subnet, Init(infos));
      var a := InfosEffect(env.md5, w, Pols(s.table), name, namespace, subnet, Init(infos));
      if ok {
        AddInfoEffect(env, feed, w, s1, name, namespace, subnet, Last(infos), h.subnetOf);
        PolsAfter(s.table, s1.table, c, subnet, a);
        AfterTwice(s.table, s1.table, AddInfo(env, feed, s1, name, namespace, subnet, Last(infos)).0.table, c, subnet,
                   a,
                   InfoEffect(env.md5, w, Pols(s.table), name, namespace, subnet, Last(infos)));
      }
    }
  }

  lemma AfterNothing(t: Table, c: string, subnet: string)
    requires BASE in t
    ensures After(t, t, c, subnet, NetEffect(true, false, [], map[]))
  {
    hide Kind;
  }
}
