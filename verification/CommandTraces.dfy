/** The handlers as sequences of iptables commands. */
module CommandTraces {
  import opened Sequences
  import opened Text
  import opened Rules
  import opened Tables
  import opened Invariant
  import opened Handlers
  import opened Frames
  import opened Safety
  import opened Commands

  // ---------- Handlers that add ----------

  function AddPeerCommands(feed: Feed, s: State, namespace: string, chain: string, peer: string,
                           skipBlank: bool): seq<Command>
  {
    var name, known := Trim(peer), feed(s.tick).networks;
    if (skipBlank && name == "") || (namespace, name) !in known then []
    else PeerCommands(s.table, chain, known[(namespace, name)])
  }

  function AddPeersCommands(feed: Feed, s: State, namespace: string, chain: string, peers: seq<string>, skipBlank: bool)
    : seq<Command>
  {
    if peers == [] then []
    else
      var s1 := AddPeers(feed, s, namespace, chain, Init(peers), skipBlank);
      AddPeersCommands(feed, s, namespace, chain, Init(peers), skipBlank) +
      AddPeerCommands(feed, s1, namespace, chain, Last(peers), skipBlank)
  }

  lemma {:induction false} AddPeersLead(feed: Feed, s: State, namespace: string, chain: string, peers: seq<string>,
                                        skipBlank: bool)
    requires IsPol(chain)
    ensures Leads(s.table, AddPeersCommands(feed, s, namespace, chain, peers, skipBlank),
                  AddPeers(feed, s, namespace, chain, peers, skipBlank).table)
  {
    hide Kind, Trim, Leads, PeerCommands, InsertPeer;
    NoneLeads(s.table);
    if peers != [] {
      AddPeersLead(feed, s, namespace, chain, Init(peers), skipBlank);
      var s1 := AddPeers(feed, s, namespace, chain, Init(peers), skipBlank);
      var key, known := (namespace, Trim(Last(peers))), feed(s1.tick).networks;
      NoneLeads(s1.table);
      if key in known { PeerLeads(s1.table, chain, known[key]); }
      LeadsOn(s.table, AddPeersCommands(feed, s, namespace, chain, Init(peers), skipBlank), s1.table,
              AddPeerCommands(feed, s1, namespace, chain, Last(peers), skipBlank),
              AddPeer(feed, s1, namespace, chain, Last(peers), skipBlank).table);
    }
  }

  function AddInfoCommands(env: Env, feed: Feed, s: State, name: string, namespace: string, subnet: string,
                           info: PolicyInfo)
    : seq<Command>
  {
    var chain := PolName(env.md5, info.name, namespace);
    match info.networks
    case Some(nets) =>
      var c := NetName(env.md5, name, namespace);
      var (t1, c1, _) := AddNetwork(s.table, c, subnet);
      var (t2, e) := InsertFirst(t1, c1, Jump(chain));
      var cmds := AddNetworkCommands(s.table, c, subnet) + InsertCommands(t1, c1, Jump(chain));
      if e.Fail? then cmds
      else cmds + AddPeersCommands(feed, State(t2, s.tick), namespace, chain, Peers(nets, name), true)
    case None => PeerCommands(s.table, chain, subnet)
  }

  lemma JumpFits(c: string, p: string)
    requires IsPol(p) && (IsNet(c) || c == "")
    ensures Fits(c, Jump(p))
  {
    hide Kind;
    KindFacts();
  }

  lemma AddInfoLeads(env: Env, feed: Feed, s: State, name: string, namespace: string, subnet: string, info: PolicyInfo)
    ensures Leads(s.table, AddInfoCommands(env, feed, s, name, namespace, subnet, info),
                  AddInfo(env, feed, s, name, namespace, subnet, info).0.table)
  {
    hide Kind, Leads, Fits, AddNetwork, AddNetworkCommands, InsertFirst, InsertCommands;
    hide PeerCommands, InsertPeer, AddPeers, AddPeersCommands, NetName, PolName;
    var chain := PolName(env.md5, info.name, namespace);
    match info.networks
    case Some(nets) =>
      var c := NetName(env.md5, name, namespace);
      var (t1, c1, _) := AddNetwork(s.table, c, subnet);
      var (t2, e) := InsertFirst(t1, c1, Jump(chain));
      AddNetworkKeepsNets(s.table, c, subnet);
      AddNetworkLeads(s.table, c, subnet);
      JumpFits(c1, chain);
      InsertLeads(t1, c1, Jump(chain));
      var cmds := AddNetworkCommands(s.table, c, subnet) + InsertCommands(t1, c1, Jump(chain));
      LeadsOn(s.table, AddNetworkCommands(s.table, c, subnet), t1, InsertCommands(t1, c1, Jump(chain)), t2);
      var s2, peers := State(t2, s.tick), Peers(nets, name);
      AddPeersLead(feed, s2, namespace, chain, peers, true);
      LeadsOn(s.table, cmds, t2, AddPeersCommands(feed, s2, namespace, chain, peers, true),
              AddPeers(feed, s2, namespace, chain, peers, true).table);
    case None => PeerLeads(s.table, chain, subnet);
  }

  function AddInfosCommands(env: Env, feed: Feed, s: State, name: string, namespace: string, subnet: string,
                            infos: seq<PolicyInfo>): seq<Command>
  {
    if infos == [] then []
    else
      var (s1, ok) := AddInfos(env, feed, s, name, namespace, subnet, Init(infos));
      var before := AddInfosCommands(env, feed, s, name, namespace, subnet, Init(infos));
      if ok then before + AddInfoCommands(env, feed, s1, name, namespace, subnet, Last(infos)) else before
  }

  lemma {:induction false} AddInfosLead(env: Env, feed: Feed, s: State, name: string, namespace: string, subnet: string,
                                        infos: seq<PolicyInfo>)
    ensures Leads(s.table, AddInfosCommands(env, feed, s, name, namespace, subnet, infos),
                  AddInfos(env, feed, s, name, namespace, subnet, infos).0.table)
  {
    hide Leads, AddInfo, AddInfoCommands;
    NoneLeads(s.table);
    if infos != [] {
      AddInfosLead(env, feed, s, name, namespace, subnet, Init(infos));
      var (s1, ok) := AddInfos(env, feed, s, name, namespace, subnet, Init(infos));
      if ok {
        AddInfoLeads(env, feed, s1, name, namespace, subnet, Last(infos));
        LeadsOn(s.table, AddInfosCommands(env, feed, s, name, namespace, subnet, Init(infos)), s1.table,
                AddInfoCommands(env, feed, s1, name, namespace, subnet, Last(infos)),
                AddInfo(env, feed, s1, name, namespace, subnet, Last(infos)).0.table);
      }
    }
  }

  function NetworkAddCommands(env: Env, feed: Feed, s: State, name: string, namespace: string): seq<Command> {
    var known, key := feed(s.tick).networks, (namespace, Trim(name));
    if key !in known then []
    else
      AddInfosCommands(env, feed, State(s.table, s.tick + 2), Trim(name), namespace, known[key],
                       ListPolicies(env, feed(s.tick + 1), Trim(name), namespace))
  }

  lemma NetworkAddLeads(env: Env, feed: Feed, s: State, name: string, namespace: string)
    ensures Leads(s.table, NetworkAddCommands(env, feed, s, name, namespace),
                  NetworkAdd(env, feed, s, name, namespace).0.table)
  {
    hide Leads, AddInfos, AddInfosCommands, ListPolicies, Trim;
    NoneLeads(s.table);
    var known, key := feed(s.tick).networks, (namespace, Trim(name));
    if key in known {
      AddInfosLead(env, feed, State(s.table, s.tick + 2), Trim(name), namespace, known[key],
                   ListPolicies(env, feed(s.tick + 1), Trim(name), namespace));
    }
  }

  function PopulateKeyCommands(env: Env, feed: Feed, s: State, namespace: string, chain: string, networks: Networks,
                               key: string): seq<Command>
  {
    var selector := Trim(key);
    var c, peers := NetName(env.md5, selector, namespace), Peers(networks, key);
    if selector == "" then []
    else if c !in s.table then
      var (s1, ok) := NetworkAdd(env, feed, s, selector, namespace);
      var cmds := NetworkAddCommands(env, feed, s, selector, namespace);
      if ok then cmds + AddPeersCommands(feed, s1, namespace, chain, peers, false) else cmds
    else
      var (t1, e) := InsertFirst(s.table, c, Jump(chain));
      var cmds := InsertCommands(s.table, c, Jump(chain));
      if e.Fail? then cmds else cmds + AddPeersCommands(feed, State(t1, s.tick), namespace, chain, peers, false)
  }

  lemma PopulateKeyLeads(env: Env, feed: Feed, s: State, namespace: string, chain: string, networks: Networks,
                         key: string)
    requires IsPol(chain)
    ensures Leads(s.table, PopulateKeyCommands(env, feed, s, namespace, chain, networks, key),
                  PopulateKey(env, feed, s, namespace, chain, networks, key).table)
  {
    hide Kind, Leads, Fits, NetworkAdd, NetworkAddCommands, InsertFirst, InsertCommands;
    hide AddPeers, AddPeersCommands, NetName, Trim;
    NoneLeads(s.table);
    var selector := Trim(key);
    var c, peers := NetName(env.md5, selector, namespace), Peers(networks, key);
    if c !in s.table {
      NetworkAddLeads(env, feed, s, selector, namespace);
      var s1 := NetworkAdd(env, feed, s, selector, namespace).0;
      AddPeersLead(feed, s1, namespace, chain, peers, false);
      LeadsOn(s.table, NetworkAddCommands(env, feed, s, selector, namespace), s1.table,
              AddPeersCommands(feed, s1, namespace, chain, peers, false),
              AddPeers(feed, s1, namespace, chain, peers, false).table);
    } else {
      var s1 := State(InsertFirst(s.table, c, Jump(chain)).0, s.tick);
      JumpFits(c, chain);
      InsertLeads(s.table, c, Jump(chain));
      AddPeersLead(feed, s1, namespace, chain, peers, false);
      LeadsOn(s.table, InsertCommands(s.table, c, Jump(chain)), s1.table,
              AddPeersCommands(feed, s1, namespace, chain, peers, false),
              AddPeers(feed, s1, namespace, chain, peers, false).table);
    }
  }

  function PopulateCommands(env: Env, feed: Feed, s: State, namespace: string, chain: string, networks: Networks,
                            keys: seq<string>): seq<Command>
  {
    if keys == [] then []
    else
      var s1 := Populate(env, feed, s, namespace, chain, networks, Init(keys));
      PopulateCommands(env, feed, s, namespace, chain, networks, Init(keys)) +
      PopulateKeyCommands(env, feed, s1, namespace, chain, networks, Last(keys))
  }

  lemma {:induction false} PopulateLeads(env: Env, feed: Feed, s: State, namespace: string, chain: string,
                                         networks: Networks, keys: seq<string>)
    requires IsPol(chain)
    ensures Leads(s.table, PopulateCommands(env, feed, s, namespace, chain, networks, keys),
                  Populate(env, feed, s, namespace, chain, networks, keys).table)
  {
    hide Kind, Leads, PopulateKey, PopulateKeyCommands;
    NoneLeads(s.table);
    if keys != [] {
      PopulateLeads(env, feed, s, namespace, chain, networks, Init(keys));
      var s1 := Populate(env, feed, s, namespace, chain, networks, Init(keys));
      PopulateKeyLeads(env, feed, s1, namespace, chain, networks, Last(keys));
      LeadsOn(s.table, PopulateCommands(env, feed, s, namespace, chain, networks, Init(keys)), s1.table,
              PopulateKeyCommands(env, feed, s1, namespace, chain, networks, Last(keys)),
              PopulateKey(env, feed, s1, namespace, chain, networks, Last(keys)).table);
    }
  }

  // ---------- Handlers that take away ----------

  ghost function SweepLinesCommands(t: Table, lines: seq<string>, chain: string): seq<Command> {
    if lines == [] then []
    else
      var (t1, met) := SweepLines(t, Init(lines), chain);
      var before := SweepLinesCommands(t, Init(lines), chain);
      var c := NetworkWord(Split(Last(lines), " "));
      if Contains(Last(lines), NETWORK_PREFIX) && c !in met then before + RemoveJumpCommands(t1, c, chain) else before
  }

  /** Every line that holds the network prefix has a network chain's name as its last such word. */
  ghost predicate NameNetworks(lines: seq<string>) {
    forall i :: 0 <= i < |lines| && Contains(lines[i], NETWORK_PREFIX) ==> IsNet(NetworkWord(Split(lines[i], " ")))
  }

  lemma {:induction false} SweepLinesLead(t: Table, lines: seq<string>, chain: string)
    requires NameNetworks(lines)
    ensures Leads(t, SweepLinesCommands(t, lines, chain), SweepLines(t, lines, chain).0)
  {
    hide Kind, Leads, Contains, NetworkWord, Split, RemoveJump, RemoveJumpCommands;
    NoneLeads(t);
    if lines != [] {
      var n := |lines| - 1;
      assert lines[n] == Last(lines) && forall i :: 0 <= i < n ==> Init(lines)[i] == lines[i];
      SweepLinesLead(t, Init(lines), chain);
      var (t1, met) := SweepLines(t, Init(lines), chain);
      var c := NetworkWord(Split(Last(lines), " "));
      if Contains(Last(lines), NETWORK_PREFIX) && c !in met {
        RemoveJumpLeads(t1, c, chain);
        LeadsOn(t, SweepLinesCommands(t, Init(lines), chain), t1, RemoveJumpCommands(t1, c, chain),
                RemoveJump(t1, c, chain).0);
      }
    }
  }

  lemma BaseLinesNameNetworks(t: Table)
    requires Layered(t)
    ensures NameNetworks(Listing(t, BASE))
  {
    hide Kind, Contains, Line, Header, Split, NetworkWord, Cidr;
    KindFacts();
    var lines := Listing(t, BASE);
    assert LayerOk(t, BASE);
    BaseHeaderHasNoPrefix();
    forall i | 0 <= i < |lines| && Contains(lines[i], NETWORK_PREFIX) ensures IsNet(NetworkWord(Split(lines[i], " "))) {
      assert i > 0;
      var r := t[BASE][i - 1];
      assert lines[i] == Line(BASE, r) && BaseRule(t, r);
      BaseLineWord(t, r);
    }
  }

  ghost function RemoveJumpsCommands(env: Env, t: Table, namespace: string, chain: string,
                                     keys: seq<string>): seq<Command>
  {
    if keys == [] then []
    else
      RemoveJumpsCommands(env, t, namespace, chain, Init(keys)) +
      RemoveJumpCommands(RemoveJumps(env, t, namespace, chain, Init(keys)),
                         NetName(env.md5, Trim(Last(keys)), namespace), chain)
  }

  lemma {:induction false} RemoveJumpsLead(env: Env, t: Table, namespace: string, chain: string, keys: seq<string>)
    ensures Leads(t, RemoveJumpsCommands(env, t, namespace, chain, keys), RemoveJumps(env, t, namespace, chain, keys))
  {
    hide Kind, Leads, RemoveJump, RemoveJumpCommands, NetName, Trim;
    NoneLeads(t);
    if keys != [] {
      RemoveJumpsLead(env, t, namespace, chain, Init(keys));
      var t1, c := RemoveJumps(env, t, namespace, chain, Init(keys)), NetName(env.md5, Trim(Last(keys)), namespace);
      RemoveJumpLeads(t1, c, chain);
      LeadsOn(t, RemoveJumpsCommands(env, t, namespace, chain, Init(keys)), t1, RemoveJumpCommands(t1, c, chain),
              RemoveJump(t1, c, chain).0);
    }
  }

  ghost function DeleteInfoCommands(env: Env, t: Table, name: string, namespace: string, subnet: string,
                                    info: PolicyInfo)
    : seq<Command>
  {
    match info.networks
    case Some(_) => RemoveNetworkCommands(t, NetName(env.md5, name, namespace))
    case None =>
      var chain := PolName(env.md5, info.name, info.namespace);
      if chain in t then DropTwoCommands(t, chain, subnet) else []
  }

  lemma DeleteInfoLeads(env: Env, t: Table, name: string, namespace: string, subnet: string, info: PolicyInfo)
    ensures Leads(t, DeleteInfoCommands(env, t, name, namespace, subnet, info),
                  DeleteInfo(env, t, name, namespace, subnet, info).0)
  {
    hide Kind, Leads, RemoveNetwork, RemoveNetworkCommands, DropTwo, DropTwoCommands, NetName, PolName;
    NoneLeads(t);
    RemoveNetworkLeads(t, NetName(env.md5, name, namespace));
    var chain := PolName(env.md5, info.name, info.namespace);
    if chain in t { DropTwoLeads(t, chain, subnet); }
  }

  ghost function DeleteInfosCommands(env: Env, t: Table, name: string, namespace: string, subnet: string,
                                     infos: seq<PolicyInfo>): seq<Command>
  {
    if infos == [] then []
    else
      var (t1, ok) := DeleteInfos(env, t, name, namespace, subnet, Init(infos));
      var before := DeleteInfosCommands(env, t, name, namespace, subnet, Init(infos));
      if ok then before + DeleteInfoCommands(env, t1, name, namespace, subnet, Last(infos)) else before
  }

  lemma {:induction false} DeleteInfosLead(env: Env, t: Table, name: string, namespace: string, subnet: string,
                                           infos: seq<PolicyInfo>)
    ensures Leads(t, DeleteInfosCommands(env, t, name, namespace, subnet, infos),
                  DeleteInfos(env, t, name, namespace, subnet, infos).0)
  {
    hide Leads, DeleteInfo, DeleteInfoCommands;
    NoneLeads(t);
    if infos != [] {
      DeleteInfosLead(env, t, name, namespace, subnet, Init(infos));
      var (t1, ok) := DeleteInfos(env, t, name, namespace, subnet, Init(infos));
      if ok {
        DeleteInfoLeads(env, t1, name, namespace, subnet, Last(infos));
        LeadsOn(t, DeleteInfosCommands(env, t, name, namespace, subnet, Init(infos)), t1,
                DeleteInfoCommands(env, t1, name, namespace, subnet, Last(infos)),
                DeleteInfo(env, t1, name, namespace, subnet, Last(infos)).0);
      }
    }
  }

  // ---------- Whole handlers ----------

  ghost function PolicyCommands(env: Env, feed: Feed, s: State, name: string, namespace: string,
                                update: bool): seq<Command>
  {
    var found := FindPolicy(feed(s.tick).policies, name, namespace);
    if found.None? || Parse(env, found.value.annotation).None? then []
    else
      var nets, chain := Parse(env, found.value.annotation).value, PolName(env.md5, name, namespace);
      var s1 := State(ClearChain(s.table, chain), s.tick + 1);
      [Flush(chain)] +
      if !update || nets != map[] then
        PopulateCommands(env, feed, s1, namespace, chain, nets, feed(s1.tick).order(nets.Keys))
      else if BASE !in s1.table then []
      else SweepLinesCommands(s1.table, Listing(s1.table, BASE), chain)
  }

  lemma PolicyLeads(env: Env, feed: Feed, s: State, name: string, namespace: string, update: bool)
    requires Layered(s.table)
    ensures var s' := if update then PolicyUpdate(env, feed, s, name, namespace)
                      else PolicyAdd(env, feed, s, name, namespace);
            Leads(s.table, PolicyCommands(env, feed, s, name, namespace, update), s'.0.table)
  {
    hide Kind, Leads, Layered, Populate, PopulateCommands, SweepLines, SweepLinesCommands, Listing;
    hide FindPolicy, Parse, PolName, ClearChain, NameNetworks;
    NoneLeads(s.table);
    var found := FindPolicy(feed(s.tick).policies, name, namespace);
    if found.Some? && Parse(env, found.value.annotation).Some? {
      var nets, chain := Parse(env, found.value.annotation).value, PolName(env.md5, name, namespace);
      var t1 := ClearChain(s.table, chain);
      var s1 := State(t1, s.tick + 1);
      var keys := feed(s1.tick).order(nets.Keys);
      OneLeads(s.table, Flush(chain));
      CommandKeepsLayers(s.table, Flush(chain));
      LayeredFacts(t1);
      PopulateLeads(env, feed, s1, namespace, chain, nets, keys);
      LeadsOn(s.table, [Flush(chain)], t1, PopulateCommands(env, feed, s1, namespace, chain, nets, keys),
              Populate(env, feed, s1, namespace, chain, nets, keys).table);
      BaseLinesNameNetworks(t1);
      SweepLinesLead(t1, Listing(t1, BASE), chain);
      LeadsOn(s.table, [Flush(chain)], t1, SweepLinesCommands(t1, Listing(t1, BASE), chain),
              SweepLines(t1, Listing(t1, BASE), chain).0);
    }
  }

  ghost function PolicyDeleteCommands(env: Env, feed: Feed, s: State, name: string, namespace: string,
                                      annotation: string)
    : seq<Command>
  {
    var nets, chain := Parse(env, annotation), PolName(env.md5, name, namespace);
    if nets.None? then []
    else
      RemoveJumpsCommands(env, s.table, namespace, chain, feed(s.tick).order(nets.value.Keys)) + RetireCommands(chain)
  }

  lemma PolicyDeleteLeads(env: Env, feed: Feed, s: State, name: string, namespace: string, annotation: string)
    ensures Leads(s.table, PolicyDeleteCommands(env, feed, s, name, namespace, annotation),
                  PolicyDelete(env, feed, s, name, namespace, annotation).0.table)
  {
    hide Kind, Leads, Parse, PolName, RemoveJumps, RemoveJumpsCommands, RetireCommands, FlushDelete;
    NoneLeads(s.table);
    var nets, chain := Parse(env, annotation), PolName(env.md5, name, namespace);
    if nets.Some? {
      var keys := feed(s.tick).order(nets.value.Keys);
      var t1 := RemoveJumps(env, s.table, namespace, chain, keys);
      RemoveJumpsLead(env, s.table, namespace, chain, keys);
      RetireLeads(t1, chain);
      LeadsOn(s.table, RemoveJumpsCommands(env, s.table, namespace, chain, keys), t1, RetireCommands(chain),
              FlushDelete(t1, chain).0);
    }
  }

  /** The one deletion that is tried is refused. */
  function NetworkUpdateCommands(env: Env, feed: Feed, s: State, name: string, namespace: string): seq<Command> {
    if (namespace, name) in feed(s.tick).networks && BASE in s.table
       && AnyContains(Listing(s.table, BASE), NetName(env.md5, name, namespace))
    then [DeleteAt(BASE, 0)] else []
  }

  lemma NetworkUpdateLeads(env: Env, feed: Feed, s: State, name: string, namespace: string)
    ensures Leads(s.table, NetworkUpdateCommands(env, feed, s, name, namespace),
                  NetworkUpdate(env, feed, s, name, namespace).0.table)
  {
    hide Kind, Leads, NetworkUpdate, NetName, Listing, AnyContains;
    KindFacts();
    NetworkUpdateIs(env, feed, s, name, namespace);
    NoneLeads(s.table);
    OneLeads(s.table, DeleteAt(BASE, 0));
    assert Exec(s.table, DeleteAt(BASE, 0)) == s.table;
  }

  ghost function HandleCommands(env: Env, feed: Feed, s: State, e: Event): seq<Command> {
    match e
    case PolicyAdded(name, namespace) => PolicyCommands(env, feed, s, name, namespace, false)
    case PolicyUpdated(name, namespace, _) => PolicyCommands(env, feed, s, name, namespace, true)
    case PolicyDeleted(name, namespace, annotation) => PolicyDeleteCommands(env, feed, s, name, namespace, annotation)
    case NetworkAdded(name, namespace) => NetworkAddCommands(env, feed, s, name, namespace)
    case NetworkUpdated(name, namespace) => NetworkUpdateCommands(env, feed, s, name, namespace)
    case NetworkDeleted(name, namespace, subnet) =>
      DeleteInfosCommands(env, s.table, name, namespace, subnet, ListPolicies(env, feed(s.tick), name, namespace))
    case Unknown => []
  }

  lemma HandleLeads(env: Env, feed: Feed, s: State, e: Event)
    requires Layered(s.table)
    ensures Leads(s.table, HandleCommands(env, feed, s, e), Handle(env, feed, s, e).0.table)
  {
    hide Leads, Layered, PolicyCommands, PolicyAdd, PolicyUpdate, PolicyDelete, PolicyDeleteCommands;
    hide NetworkAdd, NetworkAddCommands, NetworkUpdate, NetworkUpdateCommands;
    hide DeleteInfos, DeleteInfosCommands, ListPolicies;
    NoneLeads(s.table);
    match e
    case PolicyAdded(name, namespace) => PolicyLeads(env, feed, s, name, namespace, false);
    case PolicyUpdated(name, namespace, _) => PolicyLeads(env, feed, s, name, namespace, true);
    case PolicyDeleted(name, namespace, annotation) => PolicyDeleteLeads(env, feed, s, name, namespace, annotation);
    case NetworkAdded(name, namespace) => NetworkAddLeads(env, feed, s, name, namespace);
    case NetworkUpdated(name, namespace) => NetworkUpdateLeads(env, feed, s, name, namespace);
    case NetworkDeleted(name, namespace, subnet) =>
      DeleteInfosLead(env, s.table, name, namespace, subnet, ListPolicies(env, feed(s.tick), name, namespace));
    case Unknown =>
  }

  /** The commands that syncHandler issues on a key. */
  ghost function SyncCommands(env: Env, feed: Feed, s: State, key: string): seq<Command> {
    match env.decode(key)
    case None => []
    case Some(fields) => HandleCommands(env, feed, s, EventOf(fields))
  }

  lemma SyncLeads(env: Env, feed: Feed, s: State, key: string)
    requires Layered(s.table)
    ensures Leads(s.table, SyncCommands(env, feed, s, key), Sync(env, feed, s, key).0.table)
  {
    hide Leads, Layered, HandleCommands, Handle, EventOf;
    NoneLeads(s.table);
    if env.decode(key).Some? { HandleLeads(env, feed, s, EventOf(env.decode(key).value)); }
  }
}
