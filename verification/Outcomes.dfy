/**
  What the ADD and the DELETE of a logical network achieve, told from the
  policies' annotations and the known subnets: which chains, which jumps and
  which accept rules there are afterwards.
 */
module Outcomes {
  import opened Options
  import opened Sequences
  import opened Text
  import opened Rules
  import opened Tables
  import opened Invariant
  import opened Preservation
  import opened Pairing
  import opened Handlers
  import opened Frames
  import opened Safety
  import opened PolicyListing
  import opened Membership
  import opened Effects
  import opened Populating
  import opened Exactness
  import opened Retirement
  import opened Runs

  // ---------- Peers and their subnets ----------

  /** The network is known, with that well-formed subnet. */
  ghost predicate Resolves(w: World, namespace: string, name: string, subnet: string) {
    (namespace, name) in w.networks && w.networks[(namespace, name)] == subnet && Cidr(subnet)
  }

  lemma {:induction false} PeerSubnetsMean(w: World, namespace: string, peers: seq<string>, skipBlank: bool,
                                           subnet: string)
    ensures subnet in PeerSubnets(w, namespace, peers, skipBlank) <==>
            exists j :: 0 <= j < |peers| && Resolves(w, namespace, Trim(peers[j]), subnet) &&
              (skipBlank ==> Trim(peers[j]) != "")
  {
    hide Trim, Cidr;
    if peers != [] {
      var n := |peers| - 1;
      PeerSubnetsMean(w, namespace, Init(peers), skipBlank, subnet);
      assert peers[n] == Last(peers) && forall j :: 0 <= j < n ==> Init(peers)[j] == peers[j];
      if subnet in PeerSubnet(w, namespace, Last(peers), skipBlank) {
        assert Resolves(w, namespace, Trim(peers[n]), subnet);
      }
    }
  }

  /** When a network with the subnet `own` comes up, the policy lets `subnet` in: its own peers', or the network's. */
  ghost predicate Gives(env: Env, w: World, q: PolicyObject, name: string, own: string, subnet: string) {
    || (Selects(env, q, name) &&
        exists peer :: peer != "" && LetsIn(env, q, name, peer) && Resolves(w, q.namespace, peer, subnet))
    || (PeersOnly(env, q, name) && subnet == own && Cidr(own))
  }

  /** What one entry of the list brings. */
  ghost predicate Brings(w: World, name: string, namespace: string, own: string, info: PolicyInfo, subnet: string) {
    match info.networks
    case None => subnet == own && Cidr(own)
    case Some(nets) => subnet in PeerSubnets(w, namespace, Peers(nets, name), true)
  }

  lemma SelectorBrings(env: Env, w: World, q: PolicyObject, name: string, own: string, subnet: string)
    requires Selects(env, q, name)
    ensures Brings(w, name, q.namespace, own, EntryOf(env, q, true), subnet) <==> Gives(env, w, q, name, own, subnet)
  {
    hide Trim, Cidr, Selectors, PeerSubnets, Selects, LetsIn, Resolves;
    SelectsIsParsed(env, q, name);
    assert name != "" by { SelectsNamed(env, q, name); }
    var peers := Peers(Parse(env, q.annotation).value, name);
    PeerSubnetsMean(w, q.namespace, peers, true, subnet);
    assert !PeersOnly(env, q, name);
    if j :| 0 <= j < |peers| && Resolves(w, q.namespace, Trim(peers[j]), subnet) && Trim(peers[j]) != "" {
      IsPeerMeans(env, q, name, Trim(peers[j]));
    }
    if peer :| peer != "" && LetsIn(env, q, name, peer) && Resolves(w, q.namespace, peer, subnet) {
      IsPeerMeans(env, q, name, peer);
      var j :| 0 <= j < |peers| && Trim(peers[j]) == peer;
    }
  }

  lemma SelectsNamed(env: Env, q: PolicyObject, name: string)
    requires Selects(env, q, name)
    ensures name != ""
  {
  }

  lemma ConcernedBrings(env: Env, w: World, q: PolicyObject, name: string, own: string, subnet: string)
    requires Selects(env, q, name) || PeersOnly(env, q, name)
    ensures Brings(w, name, q.namespace, own, EntryOf(env, q, Selects(env, q, name)), subnet) <==>
            Gives(env, w, q, name, own, subnet)
  {
    hide Cidr, PeerSubnets, Selects, LetsIn, Resolves;
    if Selects(env, q, name) { SelectorBrings(env, w, q, name, own, subnet); }
  }

  lemma {:induction false} GainsMean(md5: string -> Digest, w: World, policies: set<string>, name: string,
                                     namespace: string, own: string, infos: seq<PolicyInfo>, q: string, subnet: string)
    requires InfosEffect(md5, w, policies, name, namespace, own, infos).ok
    ensures subnet in Gain(InfosEffect(md5, w, policies, name, namespace, own, infos).gains, q) <==>
            exists i :: 0 <= i < |infos| && PolName(md5, infos[i].name, namespace) == q
                     && Brings(w, name, namespace, own, infos[i], subnet)
  {
    hide PolName, InfoEffect, Brings, Merge, Gain;
    if infos == [] {
      NoGain(q);
    } else {
      var n := |infos| - 1;
      assert infos[n] == Last(infos) && forall i :: 0 <= i < n ==> Init(infos)[i] == infos[i];
      GainsMean(md5, w, policies, name, namespace, own, Init(infos), q, subnet);
      var a := InfosEffect(md5, w, policies, name, namespace, own, Init(infos));
      var b := InfoEffect(md5, w, policies, name, namespace, own, Last(infos));
      MergeGains(a.gains, b.gains, q);
      OneGain(md5, w, policies, name, namespace, own, infos[n], q, subnet);
    }
  }

  lemma NoGain(q: string)
    ensures Gain(map[], q) == {}
  {
  }

  lemma MergeGains(g: Gains, h: Gains, q: string)
    ensures Gain(Merge(g, h), q) == Gain(g, q) + Gain(h, q)
  {
  }

  lemma OneGain(md5: string -> Digest, w: World, policies: set<string>, name: string, namespace: string, own: string,
                info: PolicyInfo, q: string, subnet: string)
    requires InfoEffect(md5, w, policies, name, namespace, own, info).ok
    ensures subnet in Gain(InfoEffect(md5, w, policies, name, namespace, own, info).gains, q) <==>
            PolName(md5, info.name, namespace) == q && Brings(w, name, namespace, own, info, subnet)
  {
    hide PolName, PeerSubnets, Cidr;
  }

  /** Some policy of the namespace whose chain is `q` lets the subnet in. */
  ghost predicate SomeGives(env: Env, w: World, name: string, namespace: string, own: string, q: string,
                            subnet: string)
  {
    exists p :: p in w.policies && p.namespace == namespace && PolName(env.md5, p.name, namespace) == q
             && Gives(env, w, p, name, own, subnet)
  }

  lemma GainsAreGiven(env: Env, w: World, policies: set<string>, name: string, namespace: string, own: string,
                      q: string,
                      subnet: string)
    requires AllLiteral(env, w.policies, namespace) && ValidOrder(w.order) && name != ""
    requires InfosEffect(env.md5, w, policies, name, namespace, own, ListPolicies(env, w, name, namespace)).ok
    ensures var e := InfosEffect(env.md5, w, policies, name, namespace, own, ListPolicies(env, w, name, namespace));
            subnet in Gain(e.gains, q) <==> SomeGives(env, w, name, namespace, own, q, subnet)
  {
    hide PolName, Brings, Gives, Selects, PeersOnly, ListPolicies, InfosEffect, ValidOrder, AllLiteral, Parse;
    var infos := ListPolicies(env, w, name, namespace);
    GainsMean(env.md5, w, policies, name, namespace, own, infos, q, subnet);
    if i :| 0 <= i < |infos| && PolName(env.md5, infos[i].name, namespace) == q
            && Brings(w, name, namespace, own, infos[i], subnet) {
      ListedIff(env, w, name, namespace, infos[i]);
      assert infos[i] in infos;
      var p :| p in w.policies && Concerned(env, p, name, namespace) &&
        infos[i] == EntryOf(env, p, Selects(env, p, name));
      ConcernedIff(env, w.policies, p, name, namespace);
      ConcernedBrings(env, w, p, name, own, subnet);
    }
    if SomeGives(env, w, name, namespace, own, q, subnet) {
      var p :| p in w.policies && p.namespace == namespace && PolName(env.md5, p.name, namespace) == q
            && Gives(env, w, p, name, own, subnet);
      GivesConcerned(env, w, p, name, own, subnet);
      ConcernedIff(env, w.policies, p, name, namespace);
      ConcernedBrings(env, w, p, name, own, subnet);
      var info := EntryOf(env, p, Selects(env, p, name));
      ListedIff(env, w, name, namespace, info);
      assert info in infos;
      var i :| 0 <= i < |infos| && infos[i] == info;
    }
  }

  lemma GivesConcerned(env: Env, w: World, p: PolicyObject, name: string, own: string, subnet: string)
    requires Gives(env, w, p, name, own, subnet)
    ensures Selects(env, p, name) || PeersOnly(env, p, name)
  {
    hide Selects, PeersOnly, LetsIn, Resolves, Cidr;
  }

  // ---------- The last selecting policy ----------

  /** The last policy of the namespace, in the order of the cache, that selects the network. */
  ghost function LastSelector(env: Env, policies: seq<PolicyObject>, name: string,
                              namespace: string): Option<PolicyObject>
  {
    if policies == [] then None
    else if Last(policies).namespace == namespace && Selects(env, Last(policies), name) then Some(Last(policies))
    else LastSelector(env, Init(policies), name, namespace)
  }

  lemma {:induction false} LastSelectingPast(a: seq<PolicyInfo>, b: seq<PolicyInfo>)
    requires forall i :: 0 <= i < |b| ==> b[i].networks.None?
    ensures LastSelecting(a + b) == LastSelecting(a)
    decreases |b|
  {
    if b == [] {
      assert a + b == a;
    } else {
      LastSelectingPast(a, Init(b));
      assert Init(a + b) == a + Init(b) && Last(a + b) == b[|b| - 1];
    }
  }

  lemma {:induction false} LastSelectingIs(env: Env, w: World, policies: seq<PolicyObject>, name: string,
                                           namespace: string)
    requires AllLiteral(env, policies, namespace) && ValidOrder(w.order) && name != ""
    ensures var last := LastSelector(env, policies, name, namespace);
            LastSelecting(Reports(env, w, policies, name, namespace)) ==
            if last.Some? then Some(EntryOf(env, last.value, true)) else None
    ensures var last := LastSelector(env, policies, name, namespace);
            && (last.None? <==> forall p :: p in policies && p.namespace == namespace ==> !Selects(env, p, name))
            && (last.Some? ==>
                  last.value in policies && last.value.namespace == namespace && Selects(env, last.value, name))
  {
    hide Report, Literal, Selects, Parse, ValidOrder, Share;
    if policies != [] {
      var p, n := Last(policies), |policies| - 1;
      assert policies[n] == p && forall i :: 0 <= i < n ==> Init(policies)[i] == policies[i];
      assert forall q :: q in policies <==> q in Init(policies) || q == p;
      LastSelectingIs(env, w, Init(policies), name, namespace);
      if p.namespace == namespace {
        ReportShare(env, w, p, name);
        var before, r := Reports(env, w, Init(policies), name, namespace), Report(env, w, p, name);
        if Selects(env, p, name) {
          SelectorShare(env, p, name);
          SelectorEntry(env, p, name);
          assert Last(before + r) == r[0];
        } else {
          LastSelectingPast(before, r);
        }
      }
    }
  }

  lemma SelectorEntry(env: Env, p: PolicyObject, name: string)
    requires Selects(env, p, name)
    ensures EntryOf(env, p, true).networks.Some?
  {
    hide Selectors;
  }

  lemma SelectorShare(env: Env, p: PolicyObject, name: string)
    requires Selects(env, p, name) && Literal(env, p.annotation)
    ensures Share(env, p, name) == 1
  {
    hide Selectors, Contains, Literal;
    LiteralConcerns(env, p, name);
  }

  /** Every policy of the namespace that selects the network has a chain. */
  ghost predicate SelectorsServed(env: Env, t: Table, policies: seq<PolicyObject>, name: string, namespace: string) {
    forall p :: p in policies && p.namespace == namespace && Selects(env, p, name) ==>
      PolName(env.md5, p.name, namespace) in t
  }

  lemma SelectorsServedIs(env: Env, w: World, t: Table, name: string, namespace: string)
    requires AllLiteral(env, w.policies, namespace) && ValidOrder(w.order) && name != ""
    ensures SelectorsHaveChains(env.md5, t, namespace, ListPolicies(env, w, name, namespace)) <==>
            SelectorsServed(env, t, w.policies, name, namespace)
  {
    hide PolName, Selects, PeersOnly, ListPolicies, ValidOrder, AllLiteral;
    var infos := ListPolicies(env, w, name, namespace);
    if SelectorsServed(env, t, w.policies, name, namespace) {
      forall i | 0 <= i < |infos| && infos[i].networks.Some? ensures PolName(env.md5, infos[i].name, namespace) in t {
        ListedIff(env, w, name, namespace, infos[i]);
        assert infos[i] in infos;
      }
    }
    if SelectorsHaveChains(env.md5, t, namespace, infos) {
      forall p | p in w.policies && p.namespace == namespace && Selects(env, p, name)
        ensures PolName(env.md5, p.name, namespace) in t
      {
        var info := EntryOf(env, p, true);
        ListedIff(env, w, name, namespace, info);
        ConcernedIff(env, w.policies, p, name, namespace);
        assert info in infos;
        SelectorEntry(env, p, name);
        var i :| 0 <= i < |infos| && infos[i] == info;
      }
    }
  }

  // ---------- Logical network ADD ----------

  /** The network's chain, the base chain and the set of chains, for every feed whose second read shows `w`. */
  lemma NetworkAddServes(env: Env, feed: Feed, s: State, name: string, namespace: string)
    requires BASE in s.table && "" !in s.table && Trim(name) != ""
    requires (namespace, Trim(name)) in feed(s.tick).networks
    requires AllLiteral(env, feed(s.tick + 1).policies, namespace) && ValidOrder(feed(s.tick + 1).order)
    ensures var n, policies := Trim(name), feed(s.tick + 1).policies;
            var own, c := feed(s.tick).networks[(namespace, n)], NetName(env.md5, n, namespace);
            var (s', ok) := NetworkAdd(env, feed, s, name, namespace);
            var t, u, last := s.table, s'.table, LastSelector(env, policies, n, namespace);
            && BASE in u
            && (ok <==> SelectorsServed(env, t, policies, n, namespace))
            && (last.None? ==> u.Keys == t.Keys && u[BASE] == t[BASE] && (c in t ==> u[c] == t[c]))
            && (last.Some? ==>
                  && u.Keys == t.Keys + {c}
                  && u[c] == (if ok && Cidr(own) then [Rule(Any, PolName(env.md5, last.value.name, namespace)),
                                                       Rule(Any, REJECT)]
                              else [Rule(Any, REJECT)])
                  && forall r :: r in u[BASE] <==>
                       r in t[BASE] || (Cidr(own) && (r == Rule(Dst(own), c) || r == Rule(Src(own), c))))
  {
    hide Kind, Cidr, Trim, NetName, PolName, NetworkAdd, Reports, SelectorsHaveChains, SelectorsServed, BaseWith;
    hide Selects, LastSelector, LastSelecting, ValidOrder, AllLiteral, Parse;
    var n, w := Trim(name), feed(s.tick + 1);
    var own, c := feed(s.tick).networks[(namespace, n)], NetName(env.md5, n, namespace);
    NetworkAddKeepsLastSelector(env, feed, s, name, namespace);
    LastSelectingIs(env, w, w.policies, n, namespace);
    SelectorsServedIs(env, w, s.table, n, namespace);
    BaseWithMembers(s.table[BASE], c, own);
    NoSelectorIsServed(env, s.table, w.policies, n, namespace);
  }

  lemma NoSelectorIsServed(env: Env, t: Table, policies: seq<PolicyObject>, name: string, namespace: string)
    ensures (forall p :: p in policies && p.namespace == namespace ==> !Selects(env, p, name)) ==>
              SelectorsServed(env, t, policies, name, namespace)
  {
    hide Selects;
  }

  /**
    Logical network ADD on the policies' chains, while the caches hold still and
    every selecting policy has a chain: each chain gains exactly the two rules
    of every subnet that its policy lets in with this network, which are the
    known peers of a policy that selects it, and the network's own subnet for a
    policy that has it as a peer only.
   */
  lemma NetworkAddLetsIn(env: Env, feed: Feed, w: World, s: State, name: string, namespace: string, h: Hyp)
    requires Steady(feed, w) && Safe(s.table, h) && FixedSubnets(env, feed, h)
    requires Trim(name) != "" && (namespace, Trim(name)) in w.networks && AllLiteral(env, w.policies, namespace)
    ensures var n := Trim(name);
            var own, c := w.networks[(namespace, n)], NetName(env.md5, n, namespace);
            var (s', ok) := NetworkAdd(env, feed, s, name, namespace);
            ok ==> forall d :: d in s.table && d != BASE && d != c ==>
              && d in s'.table
              && if IsPol(d) then
                   forall r :: r in s'.table[d] <==>
                     r in s.table[d] || exists sub :: SomeGives(env, w, n, namespace, own, d, sub)
                                                   && (r == AcceptFrom(sub) || r == AcceptTo(sub))
                 else s'.table[d] == s.table[d]
  {
    hide Kind, Cidr, Trim, NetName, AddInfos, InfosEffect, Safe;
    hide SubnetOk, Reports, SomeGives, Content, BaseWith, AllLiteral;
    var n := Trim(name);
    var own, c := w.networks[(namespace, n)], NetName(env.md5, n, namespace);
    var infos := ListPolicies(env, w, n, namespace);
    assert feed(s.tick).networks == w.networks;
    ReportsAnyOrder(env, feed(s.tick + 1), w, w.policies, n, namespace);
    AddInfosEffect(env, feed, w, State(s.table, s.tick + 2), n, namespace, own, infos, h);
    var (s', ok) := NetworkAdd(env, feed, s, name, namespace);
    var e := InfosEffect(env.md5, w, Pols(s.table), n, namespace, own, infos);
    if ok {
      forall d, sub ensures sub in Gain(e.gains, d) <==> SomeGives(env, w, n, namespace, own, d, sub) {
        GainsAreGiven(env, w, Pols(s.table), n, namespace, own, d, sub);
      }
      forall d, r | d in s.table && d != BASE && d != c && IsPol(d)
        ensures d in s'.table
        ensures r in s'.table[d] <==>
                r in s.table[d] || exists sub :: SomeGives(env, w, n, namespace, own, d, sub)
                                              && (r == AcceptFrom(sub) || r == AcceptTo(sub))
      {
        assert Grows(s.table[d], s'.table[d], Gain(e.gains, d));
        AcceptsMeans(r, Gain(e.gains, d));
      }
    }
  }

  lemma AcceptsMeans(r: Rule, subnets: set<string>)
    ensures AcceptsOneOf(r, subnets) <==> exists sub :: sub in subnets && (r == AcceptFrom(sub) || r == AcceptTo(sub))
  {
    if AcceptsOneOf(r, subnets) {
      assert r == AcceptFrom(r.on.subnet) || r == AcceptTo(r.on.subnet);
    }
  }

  /** In particular a policy that has the network as a peer only lets it in. */
  lemma NetworkAddReachesPeers(env: Env, feed: Feed, w: World, s: State, name: string, namespace: string, h: Hyp,
                               q: PolicyObject)
    requires Steady(feed, w) && Safe(s.table, h) && FixedSubnets(env, feed, h)
    requires Trim(name) != "" && (namespace, Trim(name)) in w.networks && AllLiteral(env, w.policies, namespace)
    requires Cidr(w.networks[(namespace, Trim(name))]) && NetworkAdd(env, feed, s, name, namespace).1
    requires q in w.policies && q.namespace == namespace && PeersOnly(env, q, Trim(name))
    requires PolName(env.md5, q.name, namespace) in s.table
    ensures var p, own := PolName(env.md5, q.name, namespace), w.networks[(namespace, Trim(name))];
            var u := NetworkAdd(env, feed, s, name, namespace).0.table;
            p in u && AcceptFrom(own) in u[p] && AcceptTo(own) in u[p]
  {
    hide Kind, Cidr, Trim, NetName, PolName, NetworkAdd, Safe, FixedSubnets, Steady, PeersOnly, Selects, AllLiteral;
    KindFacts();
    var p, own := PolName(env.md5, q.name, namespace), w.networks[(namespace, Trim(name))];
    NetworkAddLetsIn(env, feed, w, s, name, namespace, h);
    assert Gives(env, w, q, Trim(name), own, own);
    assert SomeGives(env, w, Trim(name), namespace, own, p, own);
    assert p != BASE && p != NetName(env.md5, Trim(name), namespace);
  }

  // ---------- Logical network DELETE ----------

  ghost predicate SomeSelects(env: Env, policies: seq<PolicyObject>, name: string, namespace: string) {
    exists p :: p in policies && p.namespace == namespace && Selects(env, p, name)
  }

  /** Some policy of the namespace whose chain is `q` has the network as a peer only. */
  ghost predicate SomePeersOnly(env: Env, policies: seq<PolicyObject>, name: string, namespace: string, q: string) {
    exists p :: p in policies && p.namespace == namespace && PolName(env.md5, p.name, namespace) == q
             && PeersOnly(env, p, name)
  }

  lemma SelectionIsListed(env: Env, w: World, name: string, namespace: string)
    requires AllLiteral(env, w.policies, namespace) && ValidOrder(w.order) && name != ""
    ensures AnySelects(ListPolicies(env, w, name, namespace)) <==> SomeSelects(env, w.policies, name, namespace)
  {
    hide PolName, Selects, ListPolicies, ValidOrder, AllLiteral, LetsIn, PeersOnly;
    var infos := ListPolicies(env, w, name, namespace);
    if AnySelects(infos) {
      var i :| 0 <= i < |infos| && infos[i].networks.Some?;
      ListedIff(env, w, name, namespace, infos[i]);
      assert infos[i] in infos;
    }
    if p :| p in w.policies && p.namespace == namespace && Selects(env, p, name) {
      ListedIff(env, w, name, namespace, EntryOf(env, p, true));
      ConcernedIff(env, w.policies, p, name, namespace);
      SelectorEntry(env, p, name);
      var i :| 0 <= i < |infos| && infos[i] == EntryOf(env, p, true);
    }
  }

  lemma PeersAreListed(env: Env, w: World, name: string, namespace: string, q: string)
    requires AllLiteral(env, w.policies, namespace) && ValidOrder(w.order) && name != ""
    ensures q in PeerOnly(env.md5, ListPolicies(env, w, name, namespace)) <==>
            SomePeersOnly(env, w.policies, name, namespace, q)
  {
    hide PolName, Selects, ListPolicies, ValidOrder, AllLiteral, LetsIn, Parse;
    var infos := ListPolicies(env, w, name, namespace);
    if q in PeerOnly(env.md5, infos) {
      var i :| 0 <= i < |infos| && infos[i].networks.None? && q == PolName(env.md5, infos[i].name, infos[i].namespace);
      ListedIff(env, w, name, namespace, infos[i]);
      assert infos[i] in infos;
      var p :| p in w.policies && Concerned(env, p, name, namespace) &&
        infos[i] == EntryOf(env, p, Selects(env, p, name));
      if Selects(env, p, name) { SelectorEntry(env, p, name); }
    }
    if SomePeersOnly(env, w.policies, name, namespace, q) {
      var p :| p in w.policies && p.namespace == namespace && PolName(env.md5, p.name, namespace) == q
            && PeersOnly(env, p, name);
      ListedIff(env, w, name, namespace, EntryOf(env, p, false));
      ConcernedIff(env, w.policies, p, name, namespace);
      var i :| 0 <= i < |infos| && infos[i] == EntryOf(env, p, false);
    }
  }

  /**
    Logical network DELETE, told from the policies: the network's chain and the
    base rules that lead to it go iff some policy selects it; the two rules of
    its subnet go from the chain of each policy that has it as a peer only;
    nothing else changes, and nothing fails.
   */
  lemma NetworkDeleteTakesOut(env: Env, feed: Feed, s: State, name: string, namespace: string, subnet: string, h: Hyp)
    requires Safe(s.table, h) && h.paired && SubstringFree(h.universe) && h.universe(subnet) && name != ""
    requires AllLiteral(env, feed(s.tick).policies, namespace) && ValidOrder(feed(s.tick).order)
    ensures var policies, c := feed(s.tick).policies, NetName(env.md5, name, namespace);
            var (s', ok) := NetworkDelete(env, feed, s, name, namespace, subnet);
            var t, u, gone := s.table, s'.table, SomeSelects(env, policies, name, namespace);
            && ok && BASE in t && BASE in u
            && (forall d :: d in u <==> d in t && !(gone && d == c))
            && (forall r :: r in u[BASE] <==> r in t[BASE] && !(gone && r.target == c))
            && forall d :: d in u && d != BASE ==>
                 if SomePeersOnly(env, policies, name, namespace, d) then
                   && u[d] == WithoutSubnet(t[d], subnet)
                   && forall r :: r in u[d] <==>
                        r in t[d] && r != Rule(Src(subnet), ACCEPT) && r != Rule(Dst(subnet), ACCEPT)
                 else u[d] == t[d]
  {
    hide Kind, ListPolicies, Safe, SubstringFree, NetName;
    hide NetworkDelete, SomeSelects, SomePeersOnly, AllLiteral, ValidOrder;
    hide Without, WithoutSubnet, PeerOnly, AnySelects;
    KindFacts();
    var w, c := feed(s.tick), NetName(env.md5, name, namespace);
    var infos := ListPolicies(env, w, name, namespace);
    NetworkDeleteExact(env, feed, s, name, namespace, subnet, h);
    SelectionIsListed(env, w, name, namespace);
    WithoutMembers(s.table[BASE], c);
    forall d ensures d in PeerOnly(env.md5, infos) <==> SomePeersOnly(env, w.policies, name, namespace, d) {
      PeersAreListed(env, w, name, namespace, d);
    }
    forall d | d in s.table ensures forall r :: r in WithoutSubnet(s.table[d], subnet) <==>
                                      r in s.table[d] && r != AcceptFrom(subnet) && r != AcceptTo(subnet) {
      WithoutSubnetMembers(s.table[d], subnet);
    }
  }
}
