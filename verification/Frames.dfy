/**
  What the handlers that add rules leave alone, and what they put into network
  chains.  Everything here holds for every table and every feed, however the
  caches change between two reads.
 */
module Frames {
  import opened Options
  import opened Sequences
  import opened Text
  import opened Rules
  import opened Tables
  import opened Invariant
  import opened Preservation
  import opened Handlers

  /** Nothing but one chain may have changed, and that only by appending. */
  ghost predicate OnlyGrows(t: Table, u: Table, chain: string) {
    && u.Keys == t.Keys
    && (forall d :: d in t && d != chain ==> u[d] == t[d])
    && (chain in t ==> t[chain] <= u[chain])
  }

  /** No chain is lost, and the chains of the other networks are as before. */
  ghost predicate NetsKept(t: Table, u: Table, c: string) {
    t.Keys <= u.Keys && forall d :: d in t && IsNet(d) && d != c ==> u[d] == t[d]
  }

  /** At most one chain comes up; new base rules lead to that chain, and old ones stay. */
  ghost predicate BaseKept(t: Table, u: Table, c: string) {
    && BASE in t && BASE in u && t.Keys <= u.Keys <= t.Keys + {c}
    && (forall r :: r in t[BASE] ==> r in u[BASE])
    && forall r :: r in u[BASE] ==> r in t[BASE] || r.target == c
  }

  // ---------- Peers ----------

  lemma InsertPeerGrows(t: Table, chain: string, subnet: string)
    ensures OnlyGrows(t, InsertPeer(t, chain, subnet).0, chain)
  {
    hide Cidr;
  }

  lemma {:induction false} AddPeersGrows(feed: Feed, s: State, namespace: string, chain: string, peers: seq<string>,
                                         skipBlank: bool)
    ensures OnlyGrows(s.table, AddPeers(feed, s, namespace, chain, peers, skipBlank).table, chain)
  {
    hide Trim, InsertPeer;
    if peers != [] {
      AddPeersGrows(feed, s, namespace, chain, Init(peers), skipBlank);
      var s1 := AddPeers(feed, s, namespace, chain, Init(peers), skipBlank);
      var known, key := feed(s1.tick).networks, (namespace, Trim(Last(peers)));
      if key in known { InsertPeerGrows(s1.table, chain, known[key]); }
    }
  }

  // ---------- One listed policy ----------

  lemma AddNetworkKeepsNets(t: Table, c: string, subnet: string)
    requires IsNet(c)
    ensures NetsKept(t, AddNetwork(t, c, subnet).0, c)
    ensures AddNetwork(t, c, subnet).1 == c || AddNetwork(t, c, subnet).1 == ""
  {
    hide Kind, Cidr;
    KindFacts();
  }

  lemma AddNetworkKeepsBase(t: Table, c: string, subnet: string)
    requires BASE in t && "" !in t && IsNet(c)
    ensures BaseKept(t, AddNetwork(t, c, subnet).0, c) && "" !in AddNetwork(t, c, subnet).0
    ensures AddNetwork(t, c, subnet).1 == c || AddNetwork(t, c, subnet).1 == ""
  {
    hide Kind, AddNetwork, Cidr;
    KindFacts();
    AddNetworkIs(t, c, subnet);
  }

  lemma AddInfoKeepsNets(env: Env, feed: Feed, s: State, name: string, namespace: string, subnet: string,
                         info: PolicyInfo)
    ensures NetsKept(s.table, AddInfo(env, feed, s, name, namespace, subnet, info).0.table,
                     NetName(env.md5, name, namespace))
  {
    hide Kind, AddNetwork, AddPeers, NetName, PolName, InsertPeer, Cidr;
    KindFacts();
    var chain, c := PolName(env.md5, info.name, namespace), NetName(env.md5, name, namespace);
    match info.networks
    case Some(nets) =>
      AddNetworkKeepsNets(s.table, c, subnet);
      var (t1, c1, _) := AddNetwork(s.table, c, subnet);
      var t2 := InsertFirst(t1, c1, Jump(chain)).0;
      AddPeersGrows(feed, State(t2, s.tick), namespace, chain, Peers(nets, name), true);
    case None =>
      InsertPeerGrows(s.table, chain, subnet);
  }

  lemma AddInfoKeepsBase(env: Env, feed: Feed, s: State, name: string, namespace: string, subnet: string,
                         info: PolicyInfo)
    requires BASE in s.table && "" !in s.table
    ensures BaseKept(s.table, AddInfo(env, feed, s, name, namespace, subnet, info).0.table,
                     NetName(env.md5, name, namespace))
  {
    hide Kind, AddNetwork, AddPeers, NetName, PolName, InsertPeer, Cidr;
    KindFacts();
    var chain, c := PolName(env.md5, info.name, namespace), NetName(env.md5, name, namespace);
    match info.networks
    case Some(nets) =>
      AddNetworkKeepsBase(s.table, c, subnet);
      var (t1, c1, _) := AddNetwork(s.table, c, subnet);
      var t2 := InsertFirst(t1, c1, Jump(chain)).0;
      assert t2.Keys == t1.Keys && t2[BASE] == t1[BASE];
      AddPeersGrows(feed, State(t2, s.tick), namespace, chain, Peers(nets, name), true);
    case None =>
      InsertPeerGrows(s.table, chain, subnet);
  }

  // ---------- All listed policies ----------

  lemma {:induction false} AddInfosKeepNets(env: Env, feed: Feed, s: State, name: string, namespace: string,
                                            subnet: string, infos: seq<PolicyInfo>)
    ensures NetsKept(s.table, AddInfos(env, feed, s, name, namespace, subnet, infos).0.table,
                     NetName(env.md5, name, namespace))
  {
    hide Kind, AddInfo, NetName;
    if infos != [] {
      AddInfosKeepNets(env, feed, s, name, namespace, subnet, Init(infos));
      var s1 := AddInfos(env, feed, s, name, namespace, subnet, Init(infos)).0;
      AddInfoKeepsNets(env, feed, s1, name, namespace, subnet, Last(infos));
    }
  }

  lemma {:induction false} AddInfosKeepBase(env: Env, feed: Feed, s: State, name: string, namespace: string,
                                            subnet: string, infos: seq<PolicyInfo>)
    requires BASE in s.table && "" !in s.table
    ensures BaseKept(s.table, AddInfos(env, feed, s, name, namespace, subnet, infos).0.table,
                     NetName(env.md5, name, namespace))
  {
    hide Kind, AddInfo, NetName;
    KindFacts();
    if infos != [] {
      AddInfosKeepBase(env, feed, s, name, namespace, subnet, Init(infos));
      var s1 := AddInfos(env, feed, s, name, namespace, subnet, Init(infos)).0;
      assert "" !in s1.table by { assert "" != NetName(env.md5, name, namespace); }
      AddInfoKeepsBase(env, feed, s1, name, namespace, subnet, Last(infos));
    }
  }

  lemma NetworkAddKeeps(env: Env, feed: Feed, s: State, name: string, namespace: string)
    ensures var u, c := NetworkAdd(env, feed, s, name, namespace).0.table, NetName(env.md5, Trim(name), namespace);
            NetsKept(s.table, u, c) && (BASE in s.table && "" !in s.table ==> BaseKept(s.table, u, c))
  {
    hide Kind, AddInfos, NetName, ListPolicies, Trim;
    var known, key := feed(s.tick).networks, (namespace, Trim(name));
    if key in known {
      var infos := ListPolicies(env, feed(s.tick + 1), Trim(name), namespace);
      AddInfosKeepNets(env, feed, State(s.table, s.tick + 2), Trim(name), namespace, known[key], infos);
      if BASE in s.table && "" !in s.table {
        AddInfosKeepBase(env, feed, State(s.table, s.tick + 2), Trim(name), namespace, known[key], infos);
      }
    }
  }

  // ---------- Only the last selecting policy survives in a refilled chain ----------

  function LastSelecting(infos: seq<PolicyInfo>): Option<PolicyInfo> {
    if infos == [] then None
    else if Last(infos).networks.Some? then Some(Last(infos))
    else LastSelecting(Init(infos))
  }

  /** Every selecting policy among the entries has a chain. */
  ghost predicate SelectorsHaveChains(md5: string -> Digest, t: Table, namespace: string, infos: seq<PolicyInfo>) {
    forall i :: 0 <= i < |infos| && infos[i].networks.Some? ==> PolName(md5, infos[i].name, namespace) in t
  }

  /** The base chain after a network's ADD: its two rules, unless its subnet is malformed. */
  function BaseAfter(rules: seq<Rule>, c: string, subnet: string): seq<Rule> {
    if Cidr(subnet) then BaseWith(rules, c, subnet) else rules
  }

  /**
    What the entries leave in a network's chain and in the base chain.  With a
    malformed subnet no jump gets in, and success is reported all the same.
   */
  ghost predicate Refilled(md5: string -> Digest, t: Table, u: Table, c: string, namespace: string, subnet: string,
                           infos: seq<PolicyInfo>, ok: bool)
  {
    && BASE in t && BASE in u
    && (ok <==> SelectorsHaveChains(md5, t, namespace, infos))
    && (ok && LastSelecting(infos).None? ==> u.Keys == t.Keys && u[BASE] == t[BASE] && (c in t ==> u[c] == t[c]))
    && (ok && LastSelecting(infos).Some? ==>
          && c in u && u.Keys == t.Keys + {c} && u[BASE] == BaseAfter(t[BASE], c, subnet)
          && u[c] == if Cidr(subnet) then [Jump(PolName(md5, LastSelecting(infos).value.name, namespace)), REJECT_ALL]
                     else [REJECT_ALL])
    && (!ok ==>
          && LastSelecting(infos).Some?
          && c in u && u.Keys == t.Keys + {c} && u[BASE] == BaseAfter(t[BASE], c, subnet) && u[c] == [REJECT_ALL])
  }

  /** One selecting policy flushes the chain and puts its own jump there, or leaves it with the REJECT only. */
  lemma SelectorRefills(env: Env, feed: Feed, s: State, name: string, namespace: string, subnet: string,
                        info: PolicyInfo)
    requires BASE in s.table && "" !in s.table && info.networks.Some?
    ensures var c, p := NetName(env.md5, name, namespace), PolName(env.md5, info.name, namespace);
            var (s', ok) := AddInfo(env, feed, s, name, namespace, subnet, info);
            && (ok <==> p in s.table) && s'.table.Keys == s.table.Keys + {c} && BASE in s'.table && c in s'.table
            && s'.table[BASE] == BaseAfter(s.table[BASE], c, subnet)
            && s'.table[c] == if ok && Cidr(subnet) then [Jump(p), REJECT_ALL] else [REJECT_ALL]
  {
    hide Kind, AddNetwork, AddPeers, NetName, PolName, Cidr, BaseWith;
    KindFacts();
    var c, p := NetName(env.md5, name, namespace), PolName(env.md5, info.name, namespace);
    AddNetworkIs(s.table, c, subnet);
    var (t1, c1, _) := AddNetwork(s.table, c, subnet);
    var (t2, e) := InsertFirst(t1, c1, Jump(p));
    assert e.Done? && Cidr(subnet) ==> t2[c] == [Jump(p), REJECT_ALL];
    AddPeersGrows(feed, State(t2, s.tick), namespace, p, Peers(info.networks.value, name), true);
  }

  lemma SelectorsHaveChainsSnoc(md5: string -> Digest, t: Table, namespace: string, infos: seq<PolicyInfo>)
    requires infos != []
    ensures SelectorsHaveChains(md5, t, namespace, infos) <==>
            (SelectorsHaveChains(md5, t, namespace, Init(infos)) &&
             (Last(infos).networks.Some? ==> PolName(md5, Last(infos).name, namespace) in t))
  {
    hide PolName;
    var n := |infos| - 1;
    assert infos[n] == Last(infos) && forall i :: 0 <= i < n ==> Init(infos)[i] == infos[i];
  }

  lemma {:induction false} AddInfosRefill(env: Env, feed: Feed, s: State, name: string, namespace: string,
                                          subnet: string, infos: seq<PolicyInfo>)
    requires BASE in s.table && "" !in s.table
    ensures var (s', ok) := AddInfos(env, feed, s, name, namespace, subnet, infos);
            Refilled(env.md5, s.table, s'.table, NetName(env.md5, name, namespace), namespace, subnet, infos, ok)
  {
    hide Kind, AddInfo, NetName, PolName, Cidr, BaseWith, SelectorsHaveChains;
    KindFacts();
    if infos == [] {
      NoSelectors(env.md5, s.table, namespace);
    } else {
      AddInfosRefill(env, feed, s, name, namespace, subnet, Init(infos));
      SelectorsHaveChainsSnoc(env.md5, s.table, namespace, infos);
      var (s1, ok1) := AddInfos(env, feed, s, name, namespace, subnet, Init(infos));
      var c, info := NetName(env.md5, name, namespace), Last(infos);
      var p := PolName(env.md5, info.name, namespace);
      if ok1 {
        assert p in s1.table <==> p in s.table;
        if info.networks.Some? {
          assert "" !in s1.table;
          SelectorRefills(env, feed, s1, name, namespace, subnet, info);
          BaseWithTwice(s.table[BASE], c, subnet);
        } else {
          PeerEntryGrows(env, feed, s1, name, namespace, subnet, info);
        }
      }
    }
  }

  lemma NoSelectors(md5: string -> Digest, t: Table, namespace: string)
    ensures SelectorsHaveChains(md5, t, namespace, [])
  {
  }

  lemma PeerEntryGrows(env: Env, feed: Feed, s: State, name: string, namespace: string, subnet: string,
                       info: PolicyInfo)
    requires info.networks.None?
    ensures var (s', ok) := AddInfo(env, feed, s, name, namespace, subnet, info);
            ok && OnlyGrows(s.table, s'.table, PolName(env.md5, info.name, namespace))
  {
    hide InsertPeer, PolName;
    InsertPeerGrows(s.table, PolName(env.md5, info.name, namespace), subnet);
  }

  // ---------- Policy ADD and UPDATE ----------

  /** Some of the selectors stands for the network with that chain. */
  ghost predicate SelectedBy(md5: string -> Digest, keys: seq<string>, namespace: string, c: string) {
    exists i :: 0 <= i < |keys| && Trim(keys[i]) != "" && NetName(md5, Trim(keys[i]), namespace) == c
  }

  /**
    Network chains of `t` are in `u` with the jump in front if one of the
    selectors stands for them and they had none.
   */
  ghost predicate Jumped(md5: string -> Digest, t: Table, u: Table, namespace: string, chain: string,
                         keys: seq<string>)
  {
    && t.Keys <= u.Keys
    && forall c :: c in t && IsNet(c) ==>
         u[c] == if SelectedBy(md5, keys, namespace, c) && Jump(chain) !in t[c] then [Jump(chain)] + t[c] else t[c]
  }

  /** If the selectors enumerate a set, those of the set count. */
  lemma SelectedBySet(md5: string -> Digest, keys: seq<string>, selectors: set<string>, namespace: string, c: string)
    requires Enumerates(keys, selectors)
    ensures SelectedBy(md5, keys, namespace, c) <==>
            exists k :: k in selectors && Trim(k) != "" && NetName(md5, Trim(k), namespace) == c
  {
    hide Trim, NetName;
    if SelectedBy(md5, keys, namespace, c) {
      var i :| 0 <= i < |keys| && Trim(keys[i]) != "" && NetName(md5, Trim(keys[i]), namespace) == c;
      assert keys[i] in selectors;
    }
    if k :| k in selectors && Trim(k) != "" && NetName(md5, Trim(k), namespace) == c {
      assert k in keys;
      var i :| 0 <= i < |keys| && keys[i] == k;
    }
  }

  lemma InsertJumpKeeps(t: Table, c: string, chain: string)
    requires chain in t
    ensures var (u, e) := InsertFirst(t, c, Jump(chain));
            && e == Done && u.Keys == t.Keys && (forall d :: d in t && d != c ==> u[d] == t[d])
            && (c in t ==> u[c] == if Jump(chain) in t[c] then t[c] else [Jump(chain)] + t[c])
  {
  }

  lemma PresentKeyJumps(env: Env, feed: Feed, s: State, namespace: string, chain: string, networks: Networks,
                        key: string)
    requires IsPol(chain) && chain in s.table && Trim(key) != "" && NetName(env.md5, Trim(key), namespace) in s.table
    ensures var u, c := PopulateKey(env, feed, s, namespace, chain, networks, key).table,
                        NetName(env.md5, Trim(key), namespace);
            && NetsKept(s.table, u, c) && u.Keys == s.table.Keys
            && u[c] == (if Jump(chain) in s.table[c] then s.table[c] else [Jump(chain)] + s.table[c])
            && (BASE in s.table ==> u[BASE] == s.table[BASE])
  {
    hide Kind, NetName, Trim, NetworkAdd, AddPeers, InsertFirst;
    KindFacts();
    var c := NetName(env.md5, Trim(key), namespace);
    InsertJumpKeeps(s.table, c, chain);
    var t1 := InsertFirst(s.table, c, Jump(chain)).0;
    AddPeersGrows(feed, State(t1, s.tick), namespace, chain, Peers(networks, key), false);
  }

  lemma MissingKeyKeeps(env: Env, feed: Feed, s: State, namespace: string, chain: string, networks: Networks,
                        key: string)
    requires IsPol(chain) && Trim(key) != "" && NetName(env.md5, Trim(key), namespace) !in s.table
    ensures var u, c := PopulateKey(env, feed, s, namespace, chain, networks, key).table,
                        NetName(env.md5, Trim(key), namespace);
            NetsKept(s.table, u, c) && (BASE in s.table && "" !in s.table ==> BaseKept(s.table, u, c))
  {
    hide Kind, NetName, Trim, NetworkAdd, AddPeers, InsertFirst;
    KindFacts();
    var selector := Trim(key);
    TrimIdempotent(key);
    NetworkAddKeeps(env, feed, s, selector, namespace);
    var s1 := NetworkAdd(env, feed, s, selector, namespace).0;
    AddPeersGrows(feed, s1, namespace, chain, Peers(networks, key), false);
  }

  lemma SelectedBySnoc(md5: string -> Digest, keys: seq<string>, namespace: string, c: string)
    requires keys != []
    ensures SelectedBy(md5, keys, namespace, c) <==>
            (SelectedBy(md5, Init(keys), namespace, c) ||
             (Trim(Last(keys)) != "" && NetName(md5, Trim(Last(keys)), namespace) == c))
  {
    hide Trim, NetName;
    var n := |keys| - 1;
    assert keys[n] == Last(keys) && forall i :: 0 <= i < n ==> Init(keys)[i] == keys[i];
    if SelectedBy(md5, Init(keys), namespace, c) {
      var i :| 0 <= i < n && Trim(Init(keys)[i]) != "" && NetName(md5, Trim(Init(keys)[i]), namespace) == c;
      assert keys[i] == Init(keys)[i];
    }
  }

  lemma JumpedStep(md5: string -> Digest, t: Table, u: Table, v: Table, namespace: string, chain: string,
                   keys: seq<string>)
    requires keys != [] && Jumped(md5, t, u, namespace, chain, Init(keys))
    requires var c := NetName(md5, Trim(Last(keys)), namespace);
             if Trim(Last(keys)) == "" then v == u
             else NetsKept(u, v, c) && (c in u ==> v[c] == if Jump(chain) in u[c] then u[c] else [Jump(chain)] + u[c])
    ensures Jumped(md5, t, v, namespace, chain, keys)
  {
    hide Kind, NetName, Trim, SelectedBy;
    forall c | c in t && IsNet(c)
      ensures v[c] == if SelectedBy(md5, keys, namespace, c) && Jump(chain) !in t[c] then [Jump(chain)] + t[c] else t[c]
    {
      SelectedBySnoc(md5, keys, namespace, c);
    }
  }

  /** Populating a policy's chain: which network chains get the jump, exactly; nothing else happens to them. */
  lemma {:induction false} PopulateJumps(env: Env, feed: Feed, s: State, namespace: string, chain: string,
                                         networks: Networks, keys: seq<string>)
    requires IsPol(chain) && chain in s.table
    ensures Jumped(env.md5, s.table, Populate(env, feed, s, namespace, chain, networks, keys).table, namespace, chain,
                   keys)
  {
    hide Kind, NetName, Trim, PopulateKey, Jumped;
    if keys == [] {
      NothingJumped(env.md5, s.table, namespace, chain);
    } else {
      PopulateJumps(env, feed, s, namespace, chain, networks, Init(keys));
      var s1 := Populate(env, feed, s, namespace, chain, networks, Init(keys));
      var s2 := PopulateKey(env, feed, s1, namespace, chain, networks, Last(keys));
      assert chain in s1.table by { JumpedKeeps(env.md5, s.table, s1.table, namespace, chain, Init(keys)); }
      if Trim(Last(keys)) == "" {
        BlankKeyDoesNothing(env, feed, s1, namespace, chain, networks, Last(keys));
      } else if NetName(env.md5, Trim(Last(keys)), namespace) in s1.table {
        PresentKeyJumps(env, feed, s1, namespace, chain, networks, Last(keys));
      } else {
        MissingKeyKeeps(env, feed, s1, namespace, chain, networks, Last(keys));
      }
      JumpedStep(env.md5, s.table, s1.table, s2.table, namespace, chain, keys);
    }
  }

  lemma NothingJumped(md5: string -> Digest, t: Table, namespace: string, chain: string)
    ensures Jumped(md5, t, t, namespace, chain, [])
  {
  }

  lemma JumpedKeeps(md5: string -> Digest, t: Table, u: Table, namespace: string, chain: string, keys: seq<string>)
    requires Jumped(md5, t, u, namespace, chain, keys)
    ensures t.Keys <= u.Keys
  {
  }

  lemma BlankKeyDoesNothing(env: Env, feed: Feed, s: State, namespace: string, chain: string, networks: Networks,
                            key: string)
    requires Trim(key) == ""
    ensures PopulateKey(env, feed, s, namespace, chain, networks, key) == s
  {
  }

  /** Base rules come up only for networks that had no chain. */
  ghost predicate OnlyNewServed(t: Table, u: Table) {
    && BASE in t && BASE in u && "" !in u && t.Keys <= u.Keys
    && (forall r :: r in t[BASE] ==> r in u[BASE])
    && forall r :: r in u[BASE] ==> r in t[BASE] || r.target !in t
  }

  lemma {:induction false} PopulateServesNew(env: Env, feed: Feed, s: State, namespace: string, chain: string,
                                             networks: Networks, keys: seq<string>)
    requires IsPol(chain) && chain in s.table && BASE in s.table && "" !in s.table
    ensures OnlyNewServed(s.table, Populate(env, feed, s, namespace, chain, networks, keys).table)
  {
    hide Kind, NetName, Trim, PopulateKey;
    KindFacts();
    if keys != [] {
      PopulateServesNew(env, feed, s, namespace, chain, networks, Init(keys));
      var s1 := Populate(env, feed, s, namespace, chain, networks, Init(keys));
      var c := NetName(env.md5, Trim(Last(keys)), namespace);
      assert c != "";
      if Trim(Last(keys)) == "" {
        BlankKeyDoesNothing(env, feed, s1, namespace, chain, networks, Last(keys));
      } else if c in s1.table {
        PresentKeyJumps(env, feed, s1, namespace, chain, networks, Last(keys));
      } else {
        MissingKeyKeeps(env, feed, s1, namespace, chain, networks, Last(keys));
      }
    }
  }
}
