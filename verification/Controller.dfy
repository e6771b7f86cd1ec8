/**
  The network-policy controller: handlers that read the cached objects and
  edit the filter table in place.  Each is proved to do what the function of
  the same purpose in `Handlers` says.
 */
module Controller {
  import opened Options
  import opened Sequences
  import opened Text
  import opened Rules
  import opened Tables
  import opened IpTablesWrapper
  import opened Handlers

  lemma RepeatStep(info: PolicyInfo, n: nat)
    ensures Repeat(info, 0) == [] && |Repeat(info, n)| == n
    ensures Repeat(info, n) + [info] == Repeat(info, n + 1)
  {
  }

  method SelectorsOf(entries: seq<Entry>) returns (networks: Networks)
    ensures networks == Selectors(entries)
  {
    networks := map[];
    for i := 0 to |entries|
      invariant networks == Selectors(entries[..i])
    {
      Prefix(entries, i);
      var e := entries[i];
      if e.selector != "" {
        networks := networks[e.selector := Peers(networks, e.selector) + Split(e.peers, ",")];
      }
    }
    assert entries[..|entries|] == entries;
  }

  class NetworkPolicyController {
    const env: Env
    /** What the informer caches hold at each read. */
    const feed: Feed
    const iptable: IpTables
    /** Reads of the caches so far. */
    var tick: nat

    constructor (env: Env, feed: Feed, iptable: IpTables)
      requires iptable.md5 == env.md5
      ensures this.env == env && this.feed == feed && this.iptable == iptable && tick == 0
    {
      this.env := env;
      this.feed := feed;
      this.iptable := iptable;
      this.tick := 0;
    }

    function Now(): State
      reads this, iptable
    {
      State(iptable.chains, tick)
    }

    ghost predicate Valid() {
      iptable.md5 == env.md5
    }

    // ---------- Listers ----------

    method GetNetwork(name: string, namespace: string) returns (subnet: Option<string>)
      modifies `tick
      ensures tick == old(tick) + 1
      ensures var known := feed(old(tick)).networks;
              subnet == if (namespace, name) in known then Some(known[(namespace, name)]) else None
    {
      var known := feed(tick).networks;
      tick := tick + 1;
      if (namespace, name) in known {
        return Some(known[(namespace, name)]);
      }
      return None;
    }

    method GetPolicy(name: string, namespace: string) returns (policy: Option<PolicyObject>)
      modifies `tick
      ensures tick == old(tick) + 1
      ensures policy == FindPolicy(feed(old(tick)).policies, name, namespace)
    {
      policy := FindPolicy(feed(tick).policies, name, namespace);
      tick := tick + 1;
    }

    // ---------- Annotations and listing ----------

    method LogicalNetworksFromAnnotation(annotation: string) returns (networks: Option<Networks>)
      ensures networks == Parse(env, annotation)
    {
      match env.parse(annotation) {
        case None => return None;
        case Some(entries) =>
          var m := SelectorsOf(entries);
          return Some(m);
      }
    }

    /** One entry per occurrence of the name among the trimmed peers. */
    method ReportPeers(networks: Networks, keys: seq<string>, name: string, info: PolicyInfo)
      returns (infos: seq<PolicyInfo>)
      ensures infos == Repeat(info, CountHits(networks, keys, name))
    {
      hide Repeat, Trim, Peers;
      infos := [];
      RepeatStep(info, 0);
      for i := 0 to |keys|
        invariant |infos| == CountHits(networks, keys[..i], name) && infos == Repeat(info, |infos|)
      {
        Prefix(keys, i);
        var peers := Peers(networks, keys[i]);
        ghost var before := CountHits(networks, keys[..i], name);
        for j := 0 to |peers|
          invariant |infos| == before + CountPeers(peers[..j], name) && infos == Repeat(info, |infos|)
        {
          Prefix(peers, j);
          RepeatStep(info, |infos|);
          if name == Trim(peers[j]) {
            infos := infos + [info];
          }
        }
        assert peers[..|peers|] == peers;
      }
      assert keys[..|keys|] == keys;
    }

    /** The entries that one policy contributes. */
    method ReportPolicy(w: World, p: PolicyObject, name: string) returns (infos: seq<PolicyInfo>)
      ensures infos == Report(env, w, p, name)
    {
      if p.annotation == "" {
        return [];
      }
      var parsed := LogicalNetworksFromAnnotation(p.annotation);
      if name == "" {
        return [PolicyInfo(p.name, p.namespace, parsed)];
      }
      if !Contains(p.annotation, name) || parsed.None? {
        return [];
      }
      if name in parsed.value {
        return [PolicyInfo(p.name, p.namespace, parsed)];
      }
      infos := ReportPeers(parsed.value, w.order(parsed.value.Keys), name, PolicyInfo(p.name, p.namespace, None));
    }

    method ListNetworkPolicies(name: string, namespace: string) returns (infos: seq<PolicyInfo>)
      modifies `tick
      ensures tick == old(tick) + 1
      ensures infos == ListPolicies(env, feed(old(tick)), name, namespace)
    {
      var w := feed(tick);
      tick := tick + 1;
      infos := [];
      for i := 0 to |w.policies|
        invariant tick == old(tick) + 1
        invariant infos == Reports(env, w, w.policies[..i], name, namespace)
      {
        Prefix(w.policies, i);
        if w.policies[i].namespace == namespace {
          var more := ReportPolicy(w, w.policies[i], name);
          infos := infos + more;
        }
      }
      assert w.policies[..|w.policies|] == w.policies;
    }

    // ---------- Peers ----------

    method InsertPeers(namespace: string, chain: string, peers: seq<string>, skipBlank: bool)
      requires Valid()
      modifies iptable, `tick
      ensures Now() == AddPeers(feed, old(Now()), namespace, chain, peers, skipBlank)
    {
      hide Trim, InsertPeer;
      for i := 0 to |peers|
        invariant Now() == AddPeers(feed, old(Now()), namespace, chain, peers[..i], skipBlank)
      {
        Prefix(peers, i);
        var peer := Trim(peers[i]);
        if !skipBlank || peer != "" {
          var subnet := GetNetwork(peer, namespace);
          if subnet.Some? {
            var _ := iptable.InsertPeerRule(chain, subnet.value);
          }
        }
      }
      assert peers[..|peers|] == peers;
    }

    // ---------- Logical networks ----------

    method ApplyPolicy(name: string, namespace: string, subnet: string, info: PolicyInfo) returns (ok: bool)
      requires Valid()
      modifies iptable, `tick
      ensures (Now(), ok) == AddInfo(env, feed, old(Now()), name, namespace, subnet, info)
    {
      var chain := PolName(env.md5, info.name, namespace);
      if info.networks.Some? {
        var networkChain, _ := iptable.AddNetworkChain(name, namespace, subnet);
        InsertNewAtFront(iptable.chains, networkChain, Jump(chain));
        var err := iptable.InsertRule(networkChain, 1, Jump(chain));
        if err.Fail? {
          return false;
        }
        InsertPeers(namespace, chain, Peers(info.networks.value, name), true);
      } else {
        var _ := iptable.InsertPeerRule(chain, subnet);
      }
      return true;
    }

    method ApplyPolicies(name: string, namespace: string, subnet: string, infos: seq<PolicyInfo>) returns (ok: bool)
      requires Valid()
      modifies iptable, `tick
      ensures (Now(), ok) == AddInfos(env, feed, old(Now()), name, namespace, subnet, infos)
    {
      hide AddInfo;
      for i := 0 to |infos|
        invariant (Now(), true) == AddInfos(env, feed, old(Now()), name, namespace, subnet, infos[..i])
      {
        Prefix(infos, i);
        var applied := ApplyPolicy(name, namespace, subnet, infos[i]);
        if !applied {
          AddInfosStops(env, feed, old(Now()), name, namespace, subnet, infos, i + 1);
          return false;
        }
      }
      assert infos[..|infos|] == infos;
      return true;
    }

    method HandleLogicalNetworkAdd(name: string, namespace: string) returns (ok: bool)
      requires Valid()
      modifies iptable, `tick
      ensures (Now(), ok) == NetworkAdd(env, feed, old(Now()), name, namespace)
    {
      hide AddInfos, Trim, ListPolicies;
      var trimmed := Trim(name);
      var subnet := GetNetwork(trimmed, namespace);
      if subnet.None? {
        return false;
      }
      var infos := ListNetworkPolicies(trimmed, namespace);
      ok := ApplyPolicies(trimmed, namespace, subnet.value, infos);
    }

    method HandleLogicalNetworkUpdate(name: string, namespace: string) returns (ok: bool)
      requires Valid()
      modifies iptable, `tick
      ensures (Now(), ok) == NetworkUpdate(env, feed, old(Now()), name, namespace)
    {
      var subnet := GetNetwork(name, namespace);
      if subnet.None? {
        return false;
      }
      var chain := NetName(env.md5, name, namespace);
      var lines, err := iptable.List(BASE);
      if err.Fail? {
        return false;
      }
      ok := ReplaceRules(chain, subnet.value, lines);
    }

    /** The replacement loop over the listed base rules. */
    method ReplaceRules(chain: string, subnet: string, lines: seq<string>) returns (ok: bool)
      modifies iptable
      ensures (iptable.chains, ok) == ReplaceFrom(old(iptable.chains), chain, subnet, lines, 0, 0)
    {
      hide Insert, DeleteNumber, Contains;
      ghost var goal := ReplaceFrom(iptable.chains, chain, subnet, lines, 0, 0);
      var i := 0;
      var spec := [Rule(Dst(subnet), chain), Rule(Src(subnet), chain)];
      for pos := 0 to |lines|
        invariant 0 <= i < 2 && ReplaceFrom(iptable.chains, chain, subnet, lines, pos, i) == goal
      {
        if Contains(lines[pos], chain) {
          var err := iptable.Delete(BASE, i);
          if err.Fail? {
            return false;
          }
          err := iptable.InsertAt(BASE, pos, spec[i]);
          if err.Fail? {
            return false;
          }
          i := i + 1;
          if i == 2 {
            break;
          }
        }
      }
      return true;
    }

    method RetirePolicy(name: string, namespace: string, subnet: string, info: PolicyInfo) returns (ok: bool)
      requires Valid()
      modifies iptable
      ensures (iptable.chains, ok) == DeleteInfo(env, old(iptable.chains), name, namespace, subnet, info)
    {
      if info.networks.Some? {
        var err := iptable.DeleteNetworkChain(NetName(env.md5, name, namespace));
        return err == Done;
      }
      var _ := iptable.DeleteFirstTwo(PolName(env.md5, info.name, info.namespace), subnet);
      return true;
    }

    method HandleLogicalNetworkDelete(name: string, namespace: string, subnet: string) returns (ok: bool)
      requires Valid()
      modifies iptable, `tick
      ensures (Now(), ok) == NetworkDelete(env, feed, old(Now()), name, namespace, subnet)
    {
      hide DeleteInfo, ListPolicies;
      var infos := ListNetworkPolicies(name, namespace);
      for i := 0 to |infos|
        invariant tick == old(tick) + 1
        invariant (iptable.chains, true) == DeleteInfos(env, old(iptable.chains), name, namespace, subnet, infos[..i])
      {
        Prefix(infos, i);
        var done := RetirePolicy(name, namespace, subnet, infos[i]);
        if !done {
          DeleteInfosStops(env, old(iptable.chains), name, namespace, subnet, infos, i + 1);
          return false;
        }
      }
      assert infos[..|infos|] == infos;
      return true;
    }

    // ---------- Policies ----------

    method PopulateSelector(namespace: string, chain: string, networks: Networks, key: string)
      requires Valid()
      modifies iptable, `tick
      ensures Now() == PopulateKey(env, feed, old(Now()), namespace, chain, networks, key)
    {
      var selector := Trim(key);
      if selector == "" {
        return;
      }
      var networkChain := NetName(env.md5, selector, namespace);
      var present := iptable.ExistsChain(networkChain);
      if !present {
        var ok := HandleLogicalNetworkAdd(selector, namespace);
        if !ok {
          return;
        }
      } else {
        InsertNewAtFront(iptable.chains, networkChain, Jump(chain));
        var err := iptable.InsertRule(networkChain, 1, Jump(chain));
        if err.Fail? {
          return;
        }
      }
      InsertPeers(namespace, chain, Peers(networks, key), false);
    }

    method PopulatePolicyChain(namespace: string, chain: string, networks: Networks)
      requires Valid()
      modifies iptable, `tick
      ensures var s := old(Now());
              Now() == Populate(env, feed, s, namespace, chain, networks, feed(s.tick).order(networks.Keys))
    {
      var keys := feed(tick).order(networks.Keys);
      for i := 0 to |keys|
        invariant Now() == Populate(env, feed, old(Now()), namespace, chain, networks, keys[..i])
      {
        Prefix(keys, i);
        PopulateSelector(namespace, chain, networks, keys[i]);
      }
      assert keys[..|keys|] == keys;
    }

    method HandleNetworkPolicyAdd(name: string, namespace: string) returns (ok: bool)
      requires Valid()
      modifies iptable, `tick
      ensures (Now(), ok) == PolicyAdd(env, feed, old(Now()), name, namespace)
    {
      var policy := GetPolicy(name, namespace);
      if policy.None? {
        return false;
      }
      var networks := LogicalNetworksFromAnnotation(policy.value.annotation);
      if networks.None? {
        return false;
      }
      var chain := iptable.AddPolicyChain(name, namespace);
      PopulatePolicyChain(namespace, chain, networks.value);
      return true;
    }

    method LastNetworkWord(line: string) returns (networkChain: string)
      ensures networkChain == NetworkWord(Split(line, " "))
    {
      networkChain := "";
      var words := Split(line, " ");
      for k := 0 to |words|
        invariant networkChain == NetworkWord(words[..k])
      {
        Prefix(words, k);
        if Contains(words[k], NETWORK_PREFIX) {
          networkChain := words[k];
        }
      }
      assert words[..|words|] == words;
    }

    /** The sweep over one listing of the base chain; `m` remembers the network chains already seen. */
    method SweepListing(lines: seq<string>, chain: string)
      modifies iptable
      ensures iptable.chains == SweepLines(old(iptable.chains), lines, chain).0
    {
      var m: set<string> := {};
      for i := 0 to |lines|
        invariant (iptable.chains, m) == SweepLines(old(iptable.chains), lines[..i], chain)
      {
        Prefix(lines, i);
        if Contains(lines[i], NETWORK_PREFIX) {
          var networkChain := LastNetworkWord(lines[i]);
          if networkChain !in m {
            m := m + {networkChain};
            var _ := iptable.DeleteNetworkChainRule(networkChain, chain);
          }
        }
      }
      assert lines[..|lines|] == lines;
    }

    method HandleNetworkPolicyUpdate(name: string, namespace: string) returns (ok: bool)
      requires Valid()
      modifies iptable, `tick
      ensures (Now(), ok) == PolicyUpdate(env, feed, old(Now()), name, namespace)
    {
      var policy := GetPolicy(name, namespace);
      if policy.None? {
        return false;
      }
      var networks := LogicalNetworksFromAnnotation(policy.value.annotation);
      if networks.None? {
        return false;
      }
      var chain := iptable.AddPolicyChain(name, namespace);
      if networks.value != map[] {
        PopulatePolicyChain(namespace, chain, networks.value);
        return true;
      }
      var lines, err := iptable.List(BASE);
      if err.Fail? {
        return false;
      }
      SweepListing(lines, chain);
      return true;
    }

    method DeleteJumps(namespace: string, chain: string, keys: seq<string>)
      modifies iptable
      ensures iptable.chains == RemoveJumps(env, old(iptable.chains), namespace, chain, keys)
    {
      hide RemoveJump, NetName, Trim;
      for i := 0 to |keys|
        invariant iptable.chains == RemoveJumps(env, old(iptable.chains), namespace, chain, keys[..i])
      {
        Prefix(keys, i);
        var _ := iptable.DeleteNetworkChainRule(NetName(env.md5, Trim(keys[i]), namespace), chain);
      }
      assert keys[..|keys|] == keys;
    }

    method HandleNetworkPolicyDelete(name: string, namespace: string, annotation: string) returns (ok: bool)
      requires Valid()
      modifies iptable
      ensures (Now(), ok) == PolicyDelete(env, feed, old(Now()), name, namespace, annotation)
    {
      var networks := LogicalNetworksFromAnnotation(annotation);
      if networks.None? {
        return false;
      }
      var chain := PolName(env.md5, name, namespace);
      DeleteJumps(namespace, chain, feed(tick).order(networks.value.Keys));
      var err := iptable.DeleteIptableChain(chain);
      return err == Done;
    }

    // ---------- Dispatch ----------

    method SyncHandler(key: string) returns (ok: bool)
      requires Valid()
      modifies iptable, `tick
      ensures (Now(), ok) == Sync(env, feed, old(Now()), key)
    {
      hide PolicyAdd, PolicyUpdate, PolicyDelete, NetworkAdd, NetworkUpdate, NetworkDelete, EventOf;
      var decoded := env.decode(key);
      if decoded.None? {
        return false;
      }
      ok := true;
      match EventOf(decoded.value) {
        case PolicyAdded(name, namespace) => ok := HandleNetworkPolicyAdd(name, namespace);
        case PolicyUpdated(name, namespace, _) => ok := HandleNetworkPolicyUpdate(name, namespace);
        case PolicyDeleted(name, namespace, annotation) => ok := HandleNetworkPolicyDelete(name, namespace, annotation);
        case NetworkAdded(name, namespace) => ok := HandleLogicalNetworkAdd(name, namespace);
        case NetworkUpdated(name, namespace) => ok := HandleLogicalNetworkUpdate(name, namespace);
        case NetworkDeleted(name, namespace, subnet) => ok := HandleLogicalNetworkDelete(name, namespace, subnet);
        case Unknown =>
      }
    }
  }
}
