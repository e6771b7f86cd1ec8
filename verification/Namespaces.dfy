/**
  Policies of one namespace do not disturb those of another, although a chain's
  name is all that the table tells of them.
 */
module Namespaces {
  import opened Sequences
  import opened Text
  import opened Rules
  import opened Tables
  import opened Invariant
  import opened Handlers
  import opened Frames
  import opened Safety
  import opened Commands
  import opened CommandTraces

  /** The chain belongs to no policy that the caches ever list for the namespace. */
  ghost predicate Foreign(env: Env, feed: Feed, namespace: string, q: string) {
    forall n: nat, i :: 0 <= i < |feed(n).policies| && feed(n).policies[i].namespace == namespace ==>
      PolName(env.md5, feed(n).policies[i].name, namespace) != q
  }

  ghost predicate Kept(t: Table, u: Table, q: string) {
    (q in t <==> q in u) && (q in t ==> u[q] == t[q])
  }

  lemma AddNetworkKeepsPolicy(t: Table, c: string, subnet: string, q: string)
    requires IsNet(c) && IsPol(q)
    ensures Kept(t, AddNetwork(t, c, subnet).0, q)
  {
    hide Kind, Cidr;
    KindFacts();
  }

  lemma InsertKeeps(t: Table, c: string, r: Rule, q: string)
    requires c != q
    ensures Kept(t, InsertFirst(t, c, r).0, q)
  {
  }

  lemma AddInfoKeepsPolicy(env: Env, feed: Feed, s: State, name: string, namespace: string, subnet: string,
                           info: PolicyInfo, q: string)
    requires IsPol(q) && PolName(env.md5, info.name, namespace) != q
    ensures Kept(s.table, AddInfo(env, feed, s, name, namespace, subnet, info).0.table, q)
  {
    hide Kind, AddNetwork, InsertFirst, InsertPeer, AddPeers, NetName, PolName;
    KindFacts();
    var chain := PolName(env.md5, info.name, namespace);
    match info.networks
    case Some(nets) =>
      var c := NetName(env.md5, name, namespace);
      AddNetworkKeepsPolicy(s.table, c, subnet, q);
      AddNetworkKeepsNets(s.table, c, subnet);
      var (t1, c1, _) := AddNetwork(s.table, c, subnet);
      InsertKeeps(t1, c1, Jump(chain), q);
      var t2 := InsertFirst(t1, c1, Jump(chain)).0;
      AddPeersGrows(feed, State(t2, s.tick), namespace, chain, Peers(nets, name), true);
    case None => InsertPeerGrows(s.table, chain, subnet);
  }

  lemma {:induction false} AddInfosKeepPolicy(env: Env, feed: Feed, s: State, name: string, namespace: string,
                                              subnet: string, infos: seq<PolicyInfo>, q: string)
    requires IsPol(q) && forall i :: 0 <= i < |infos| ==> PolName(env.md5, infos[i].name, namespace) != q
    ensures Kept(s.table, AddInfos(env, feed, s, name, namespace, subnet, infos).0.table, q)
  {
    hide Kind, AddInfo, PolName;
    if infos != [] {
      assert infos[|infos| - 1] == Last(infos);
      AddInfosKeepPolicy(env, feed, s, name, namespace, subnet, Init(infos), q);
      var s1 := AddInfos(env, feed, s, name, namespace, subnet, Init(infos)).0;
      AddInfoKeepsPolicy(env, feed, s1, name, namespace, subnet, Last(infos), q);
    }
  }

  /** The list speaks of policies of the namespace only. */
  lemma {:induction false} ReportedAreListed(env: Env, w: World, policies: seq<PolicyObject>, name: string,
                                             namespace: string, i: nat)
    requires i < |Reports(env, w, policies, name, namespace)|
    ensures var info := Reports(env, w, policies, name, namespace)[i];
            info.namespace == namespace &&
            exists j :: 0 <= j < |policies| && policies[j].namespace == namespace && policies[j].name == info.name
  {
    hide Contains, CountHits, Parse;
    var before, p, n := Reports(env, w, Init(policies), name, namespace), Last(policies), |policies| - 1;
    if i < |before| {
      ReportedAreListed(env, w, Init(policies), name, namespace, i);
      var j :| 0 <= j < n && Init(policies)[j].namespace == namespace && Init(policies)[j].name == before[i].name;
      assert policies[j] == Init(policies)[j];
    } else {
      assert policies[n] == p;
    }
  }

  lemma ListedAreForeign(env: Env, feed: Feed, n: nat, name: string, namespace: string, q: string)
    requires Foreign(env, feed, namespace, q)
    ensures var infos := ListPolicies(env, feed(n), name, namespace);
            forall i :: 0 <= i < |infos| ==>
              infos[i].namespace == namespace && PolName(env.md5, infos[i].name, namespace) != q
  {
    hide Reports, PolName;
    var w := feed(n);
    var infos := ListPolicies(env, w, name, namespace);
    forall i | 0 <= i < |infos|
      ensures infos[i].namespace == namespace && PolName(env.md5, infos[i].name, namespace) != q
    {
      ReportedAreListed(env, w, w.policies, name, namespace, i);
      var j :| 0 <= j < |w.policies| && w.policies[j].namespace == namespace && w.policies[j].name == infos[i].name;
      assert PolName(env.md5, feed(n).policies[j].name, namespace) != q;
    }
  }

  lemma NetworkAddKeepsPolicy(env: Env, feed: Feed, s: State, name: string, namespace: string, q: string)
    requires IsPol(q) && Foreign(env, feed, namespace, q)
    ensures Kept(s.table, NetworkAdd(env, feed, s, name, namespace).0.table, q)
  {
    hide Kind, AddInfos, ListPolicies, Trim, PolName, Foreign;
    var known, key := feed(s.tick).networks, (namespace, Trim(name));
    if key in known {
      ListedAreForeign(env, feed, s.tick + 1, Trim(name), namespace, q);
      AddInfosKeepPolicy(env, feed, State(s.table, s.tick + 2), Trim(name), namespace, known[key],
                         ListPolicies(env, feed(s.tick + 1), Trim(name), namespace), q);
    }
  }

  lemma PopulateKeyKeepsPolicy(env: Env, feed: Feed, s: State, namespace: string, chain: string, networks: Networks,
                               key: string, q: string)
    requires IsPol(q) && chain != q && Foreign(env, feed, namespace, q)
    ensures Kept(s.table, PopulateKey(env, feed, s, namespace, chain, networks, key).table, q)
  {
    hide Kind, NetworkAdd, InsertFirst, AddPeers, NetName, Trim, Foreign;
    var selector, peers := Trim(key), Peers(networks, key);
    var c := NetName(env.md5, selector, namespace);
    NetworkAddKeepsPolicy(env, feed, s, selector, namespace, q);
    AddPeersGrows(feed, NetworkAdd(env, feed, s, selector, namespace).0, namespace, chain, peers, false);
    InsertKeeps(s.table, c, Jump(chain), q);
    AddPeersGrows(feed, State(InsertFirst(s.table, c, Jump(chain)).0, s.tick), namespace, chain, peers, false);
  }

  lemma {:induction false} PopulateKeepsPolicy(env: Env, feed: Feed, s: State, namespace: string, chain: string,
                                               networks: Networks, keys: seq<string>, q: string)
    requires IsPol(q) && chain != q && Foreign(env, feed, namespace, q)
    ensures Kept(s.table, Populate(env, feed, s, namespace, chain, networks, keys).table, q)
  {
    hide Kind, PopulateKey, Foreign;
    if keys != [] {
      PopulateKeepsPolicy(env, feed, s, namespace, chain, networks, Init(keys), q);
      var s1 := Populate(env, feed, s, namespace, chain, networks, Init(keys));
      PopulateKeyKeepsPolicy(env, feed, s1, namespace, chain, networks, Last(keys), q);
    }
  }

  // ---------- Deletions ----------

  lemma RemoveNetworkKeepsPolicy(t: Table, c: string, q: string)
    requires IsNet(c) && IsPol(q)
    ensures Kept(t, RemoveNetwork(t, c).0, q)
  {
    hide Kind, DropTwo, Referenced;
    KindFacts();
  }

  lemma RemoveJumpKeepsPolicy(t: Table, c: string, p: string, q: string)
    requires IsNet(c) && IsPol(q)
    ensures Kept(t, RemoveJump(t, c, p).0, q)
  {
    hide Kind, RemoveNetwork, StaleDeletes, Listing, KeepsPolicy;
    KindFacts();
    if c in t { RemoveNetworkKeepsPolicy(t[c := StaleDeletes(t[c], Listing(t, c), p)], c, q); }
  }

  lemma {:induction false} RemoveJumpsKeepPolicy(env: Env, t: Table, namespace: string, p: string, keys: seq<string>,
                                                 q: string)
    requires IsPol(q)
    ensures Kept(t, RemoveJumps(env, t, namespace, p, keys), q)
  {
    hide Kind, RemoveJump, NetName, Trim;
    if keys != [] {
      RemoveJumpsKeepPolicy(env, t, namespace, p, Init(keys), q);
      RemoveJumpKeepsPolicy(RemoveJumps(env, t, namespace, p, Init(keys)),
                            NetName(env.md5, Trim(Last(keys)), namespace), p, q);
    }
  }

  lemma {:induction false} SweepKeepsPolicy(t: Table, lines: seq<string>, p: string, q: string)
    requires IsPol(q) && NameNetworks(lines)
    ensures Kept(t, SweepLines(t, lines, p).0, q)
  {
    hide Kind, RemoveJump, Contains, NetworkWord, Split;
    if lines != [] {
      var n := |lines| - 1;
      assert lines[n] == Last(lines) && forall i :: 0 <= i < n ==> Init(lines)[i] == lines[i];
      SweepKeepsPolicy(t, Init(lines), p, q);
      var c := NetworkWord(Split(Last(lines), " "));
      if Contains(Last(lines), NETWORK_PREFIX) { RemoveJumpKeepsPolicy(SweepLines(t, Init(lines), p).0, c, p, q); }
    }
  }

  lemma {:induction false} DeleteInfosKeepPolicy(env: Env, t: Table, name: string, namespace: string, subnet: string,
                                                 infos: seq<PolicyInfo>, q: string)
    requires IsPol(q)
    requires forall i :: 0 <= i < |infos| ==>
               infos[i].namespace == namespace && PolName(env.md5, infos[i].name, namespace) != q
    ensures Kept(t, DeleteInfos(env, t, name, namespace, subnet, infos).0, q)
  {
    hide Kind, RemoveNetwork, DropTwo, NetName, PolName;
    if infos != [] {
      assert infos[|infos| - 1] == Last(infos);
      DeleteInfosKeepPolicy(env, t, name, namespace, subnet, Init(infos), q);
      var t1 := DeleteInfos(env, t, name, namespace, subnet, Init(infos)).0;
      RemoveNetworkKeepsPolicy(t1, NetName(env.md5, name, namespace), q);
    }
  }

  // ---------- Whole handlers ----------

  lemma PolicyHandlerKeepsPolicy(env: Env, feed: Feed, s: State, name: string, namespace: string, update: bool,
                                 q: string)
    requires Layered(s.table) && IsPol(q) && PolName(env.md5, name, namespace) != q && Foreign(env, feed, namespace, q)
    ensures var s' := if update then PolicyUpdate(env, feed, s, name, namespace)
                      else PolicyAdd(env, feed, s, name, namespace);
            Kept(s.table, s'.0.table, q)
  {
    hide Kind, Layered, Populate, SweepLines, Listing, FindPolicy, Parse, PolName, NameNetworks, Foreign;
    var found := FindPolicy(feed(s.tick).policies, name, namespace);
    if found.Some? && Parse(env, found.value.annotation).Some? {
      var nets, chain := Parse(env, found.value.annotation).value, PolName(env.md5, name, namespace);
      var s1 := State(ClearChain(s.table, chain), s.tick + 1);
      CommandKeepsLayers(s.table, Flush(chain));
      LayeredFacts(s1.table);
      PopulateKeepsPolicy(env, feed, s1, namespace, chain, nets, feed(s1.tick).order(nets.Keys), q);
      BaseLinesNameNetworks(s1.table);
      SweepKeepsPolicy(s1.table, Listing(s1.table, BASE), chain, q);
    }
  }

  /**
    Handling an event of one namespace leaves alone every policy chain that is
    neither the event's own nor that of a policy of that namespace: for every
    feed, and for every table whose layers are in order.
   */
  lemma OtherNamespacesKept(env: Env, feed: Feed, s: State, e: Event, q: string)
    requires Layered(s.table) && IsPol(q) && !e.Unknown? && Foreign(env, feed, e.namespace, q)
    requires e.PolicyAdded? || e.PolicyUpdated? || e.PolicyDeleted? ==> PolName(env.md5, e.name, e.namespace) != q
    ensures Kept(s.table, Handle(env, feed, s, e).0.table, q)
  {
    hide Kind, Layered, PolicyAdd, PolicyUpdate, NetworkAdd, NetworkUpdate, DeleteInfos, ListPolicies;
    hide RemoveJumps, Parse, PolName, Foreign;
    match e
    case PolicyAdded(name, namespace) => PolicyHandlerKeepsPolicy(env, feed, s, name, namespace, false, q);
    case PolicyUpdated(name, namespace, _) => PolicyHandlerKeepsPolicy(env, feed, s, name, namespace, true, q);
    case PolicyDeleted(name, namespace, annotation) =>
      var nets := Parse(env, annotation);
      if nets.Some? {
        RemoveJumpsKeepPolicy(env, s.table, namespace, PolName(env.md5, name, namespace),
                              feed(s.tick).order(nets.value.Keys), q);
      }
    case NetworkAdded(name, namespace) => NetworkAddKeepsPolicy(env, feed, s, name, namespace, q);
    case NetworkUpdated(name, namespace) => NetworkUpdateIs(env, feed, s, name, namespace);
    case NetworkDeleted(name, namespace, subnet) =>
      ListedAreForeign(env, feed, s.tick, name, namespace, q);
      DeleteInfosKeepPolicy(env, s.table, name, namespace, subnet, ListPolicies(env, feed(s.tick), name, namespace), q);
  }

  /**
    So a policy's event leaves alone the chain of a policy of the same name in
    another namespace, if the digests of the two differ in the first twenty
    digits, and so do those of the namespace's listed policies from the other's.
   */
  lemma SameNameElsewhereKept(env: Env, feed: Feed, s: State, e: Event, elsewhere: string)
    requires Layered(s.table) && (e.PolicyAdded? || e.PolicyUpdated? || e.PolicyDeleted?)
    requires env.md5(e.name + e.namespace)[..20] != env.md5(e.name + elsewhere)[..20]
    requires forall n: nat, i :: 0 <= i < |feed(n).policies| && feed(n).policies[i].namespace == e.namespace ==>
               env.md5(feed(n).policies[i].name + e.namespace)[..20] != env.md5(e.name + elsewhere)[..20]
    ensures Kept(s.table, Handle(env, feed, s, e).0.table, "GnPlc-" + env.md5(e.name + elsewhere)[..20])
  {
    hide Kind, Layered, PolName, Handle;
    var q := PolName(env.md5, e.name, elsewhere);
    NamedForNamespace(env.md5, e.name, e.namespace, e.name, elsewhere);
    forall n: nat, i | 0 <= i < |feed(n).policies| && feed(n).policies[i].namespace == e.namespace
      ensures PolName(env.md5, feed(n).policies[i].name, e.namespace) != q
    {
      NamedForNamespace(env.md5, feed(n).policies[i].name, e.namespace, e.name, elsewhere);
    }
    NamedForNamespace(env.md5, e.name, elsewhere, e.name, elsewhere);
    OtherNamespacesKept(env, feed, s, e, q);
  }
}
