/**
  What each handler of the network-policy controller does, as functions on
  the filter table.  The objects that the informers cache may change between
  any two reads: the n-th read of a run sees the n-th world of the feed.
 */
module Handlers {
  import opened Options
  import opened Sequences
  import opened Text
  import opened Rules
  import opened Tables

  /** One element of a policy annotation. */
  datatype Entry = Entry(selector: string, peers: string)

  /** Network selectors with the peers listed for them. */
  type Networks = map<string, seq<string>>

  datatype PolicyObject = PolicyObject(name: string, namespace: string, annotation: string)

  /**
    The cached objects: policies in listing order, subnets by (namespace, name),
    and an enumeration order for Go maps.
   */
  datatype World = World(policies: seq<PolicyObject>, networks: map<(string, string), string>,
                         order: set<string> -> seq<string>)

  type Feed = nat -> World

  /** md5, and the JSON decoders of annotations and of queue keys. */
  datatype Env = Env(
    md5: string -> Digest,
    parse: string -> Option<seq<Entry>>,
    decode: string -> Option<map<string, string>>)

  datatype State = State(table: Table, tick: nat)

  datatype PolicyInfo = PolicyInfo(name: string, namespace: string, networks: Option<Networks>)

  /** A Go map lookup of a slice: absent keys give the empty slice. */
  function Peers(networks: Networks, key: string): seq<string> {
    if key in networks then networks[key] else []
  }

  // ---------- Annotations and listing ----------

  function Selectors(entries: seq<Entry>): Networks {
    if entries == [] then map[]
    else
      var m, e := Selectors(Init(entries)), Last(entries);
      if e.selector == "" then m else m[e.selector := Peers(m, e.selector) + Split(e.peers, ",")]
  }

  function Parse(env: Env, annotation: string): Option<Networks> {
    match env.parse(annotation)
    case None => None
    case Some(entries) => Some(Selectors(entries))
  }

  function CountPeers(peers: seq<string>, name: string): nat {
    if peers == [] then 0
    else CountPeers(Init(peers), name) + if Trim(Last(peers)) == name then 1 else 0
  }

  function CountHits(networks: Networks, keys: seq<string>, name: string): nat {
    if keys == [] then 0
    else CountHits(networks, Init(keys), name) + CountPeers(Peers(networks, Last(keys)), name)
  }

  function Repeat(info: PolicyInfo, n: nat): seq<PolicyInfo> {
    seq(n, _ => info)
  }

  /** What one policy contributes to the list of policies that concern a network. */
  function Report(env: Env, w: World, p: PolicyObject, name: string): seq<PolicyInfo> {
    var nets := Parse(env, p.annotation);
    if p.annotation == "" then []
    else if name == "" then [PolicyInfo(p.name, p.namespace, nets)]
    else if !Contains(p.annotation, name) then []
    else if nets.None? then []
    else if name in nets.value then [PolicyInfo(p.name, p.namespace, nets)]
    else Repeat(PolicyInfo(p.name, p.namespace, None), CountHits(nets.value, w.order(nets.value.Keys), name))
  }

  function Reports(env: Env, w: World, policies: seq<PolicyObject>, name: string, namespace: string): seq<PolicyInfo> {
    if policies == [] then []
    else
      var before, p := Reports(env, w, Init(policies), name, namespace), Last(policies);
      if p.namespace == namespace then before + Report(env, w, p, name) else before
  }

  function ListPolicies(env: Env, w: World, name: string, namespace: string): seq<PolicyInfo> {
    Reports(env, w, w.policies, name, namespace)
  }

  function FindPolicy(policies: seq<PolicyObject>, name: string, namespace: string): Option<PolicyObject> {
    if policies == [] then None
    else if policies[0].name == name && policies[0].namespace == namespace then Some(policies[0])
    else FindPolicy(policies[1..], name, namespace)
  }

  // ---------- Logical network ADD ----------

  /** One peer: looked up, and let in if it is known.  Blank names are passed over in one of the two loops only. */
  function AddPeer(feed: Feed, s: State, namespace: string, chain: string, peer: string, skipBlank: bool): State {
    var name := Trim(peer);
    if skipBlank && name == "" then s
    else
      var known := feed(s.tick).networks;
      if (namespace, name) in known
      then State(InsertPeer(s.table, chain, known[(namespace, name)]).0, s.tick + 1)
      else State(s.table, s.tick + 1)
  }

  function AddPeers(feed: Feed, s: State, namespace: string, chain: string, peers: seq<string>,
                    skipBlank: bool): State
  {
    if peers == [] then s
    else AddPeer(feed, AddPeers(feed, s, namespace, chain, Init(peers), skipBlank), namespace, chain, Last(peers),
                 skipBlank)
  }

  /** One policy that concerns the network: a jump to it, or accept rules in it. */
  function AddInfo(env: Env, feed: Feed, s: State, name: string, namespace: string, subnet: string,
                   info: PolicyInfo): (State, bool)
  {
    var chain := PolName(env.md5, info.name, namespace);
    match info.networks
    case Some(nets) =>
      var (t1, c, _) := AddNetwork(s.table, NetName(env.md5, name, namespace), subnet);
      var (t2, e) := InsertFirst(t1, c, Jump(chain));
      if e.Fail? then (State(t2, s.tick), false)
      else (AddPeers(feed, State(t2, s.tick), namespace, chain, Peers(nets, name), true), true)
    case None =>
      (State(InsertPeer(s.table, chain, subnet).0, s.tick), true)
  }

  function AddInfos(env: Env, feed: Feed, s: State, name: string, namespace: string, subnet: string,
                    infos: seq<PolicyInfo>): (State, bool)
  {
    if infos == [] then (s, true)
    else
      var (s1, ok) := AddInfos(env, feed, s, name, namespace, subnet, Init(infos));
      if ok then AddInfo(env, feed, s1, name, namespace, subnet, Last(infos)) else (s1, false)
  }

  function NetworkAdd(env: Env, feed: Feed, s: State, name: string, namespace: string): (State, bool) {
    var trimmed := Trim(name);
    var known := feed(s.tick).networks;
    if (namespace, trimmed) !in known then (State(s.table, s.tick + 1), false)
    else
      var infos := ListPolicies(env, feed(s.tick + 1), trimmed, namespace);
      AddInfos(env, feed, State(s.table, s.tick + 2), trimmed, namespace, known[(namespace, trimmed)], infos)
  }

  // ---------- Policy ADD ----------

  function PopulateKey(env: Env, feed: Feed, s: State, namespace: string, chain: string, networks: Networks,
                       key: string): State
  {
    var selector := Trim(key);
    if selector == "" then s
    else
      var c := NetName(env.md5, selector, namespace);
      if c !in s.table then
        var (s1, ok) := NetworkAdd(env, feed, s, selector, namespace);
        if ok then AddPeers(feed, s1, namespace, chain, Peers(networks, key), false) else s1
      else
        var (t1, e) := InsertFirst(s.table, c, Jump(chain));
        if e.Fail? then State(t1, s.tick)
        else AddPeers(feed, State(t1, s.tick), namespace, chain, Peers(networks, key), false)
  }

  function Populate(env: Env, feed: Feed, s: State, namespace: string, chain: string, networks: Networks,
                    keys: seq<string>): State
  {
    if keys == [] then s
    else PopulateKey(env, feed, Populate(env, feed, s, namespace, chain, networks, Init(keys)), namespace, chain,
                     networks, Last(keys))
  }

  function PolicyAdd(env: Env, feed: Feed, s: State, name: string, namespace: string): (State, bool) {
    var found := FindPolicy(feed(s.tick).policies, name, namespace);
    if found.None? then (State(s.table, s.tick + 1), false)
    else
      var nets := Parse(env, found.value.annotation);
      if nets.None? then (State(s.table, s.tick + 1), false)
      else
        var chain := PolName(env.md5, name, namespace);
        var s1 := State(ClearChain(s.table, chain), s.tick + 1);
        (Populate(env, feed, s1, namespace, chain, nets.value, feed(s1.tick).order(nets.value.Keys)), true)
  }

  // ---------- Policy UPDATE ----------

  /** The last word of a line that holds the network prefix. */
  function NetworkWord(words: seq<string>): string {
    if words == [] then ""
    else if Contains(Last(words), NETWORK_PREFIX) then Last(words)
    else NetworkWord(Init(words))
  }

  /** Sweeps the listed base rules: each network chain met for the first time loses its jump to the policy. */
  function SweepLines(t: Table, lines: seq<string>, chain: string): (Table, set<string>) {
    if lines == [] then (t, {})
    else
      var (t1, met) := SweepLines(t, Init(lines), chain);
      var c := NetworkWord(Split(Last(lines), " "));
      if Contains(Last(lines), NETWORK_PREFIX) && c !in met
      then (RemoveJump(t1, c, chain).0, met + {c})
      else (t1, met)
  }

  function PolicyUpdate(env: Env, feed: Feed, s: State, name: string, namespace: string): (State, bool) {
    var found := FindPolicy(feed(s.tick).policies, name, namespace);
    if found.None? then (State(s.table, s.tick + 1), false)
    else
      var nets := Parse(env, found.value.annotation);
      if nets.None? then (State(s.table, s.tick + 1), false)
      else
        var chain := PolName(env.md5, name, namespace);
        var s1 := State(ClearChain(s.table, chain), s.tick + 1);
        if nets.value != map[] then
          (Populate(env, feed, s1, namespace, chain, nets.value, feed(s1.tick).order(nets.value.Keys)), true)
        else if BASE !in s1.table then (s1, false)
        else (State(SweepLines(s1.table, Listing(s1.table, BASE), chain).0, s1.tick), true)
  }

  // ---------- Policy DELETE ----------

  function RemoveJumps(env: Env, t: Table, namespace: string, chain: string, keys: seq<string>): Table {
    if keys == [] then t
    else RemoveJump(RemoveJumps(env, t, namespace, chain, Init(keys)), NetName(env.md5, Trim(Last(keys)), namespace),
                    chain).0
  }

  function PolicyDelete(env: Env, feed: Feed, s: State, name: string, namespace: string, annotation: string)
    : (State, bool)
  {
    var nets := Parse(env, annotation);
    if nets.None? then (s, false)
    else
      var chain := PolName(env.md5, name, namespace);
      var t1 := RemoveJumps(env, s.table, namespace, chain, feed(s.tick).order(nets.value.Keys));
      var (t2, e) := FlushDelete(t1, chain);
      (State(t2, s.tick), e == Done)
  }

  // ---------- Logical network DELETE and UPDATE ----------

  function DeleteInfo(env: Env, t: Table, name: string, namespace: string, subnet: string, info: PolicyInfo)
    : (Table, bool)
  {
    match info.networks
    case Some(_) =>
      var (t1, e) := RemoveNetwork(t, NetName(env.md5, name, namespace));
      (t1, e == Done)
    case None =>
      var chain := PolName(env.md5, info.name, info.namespace);
      if chain in t then (t[chain := DropTwo(chain, t[chain], subnet)], true) else (t, true)
  }

  function DeleteInfos(env: Env, t: Table, name: string, namespace: string, subnet: string,
                       infos: seq<PolicyInfo>): (Table, bool)
  {
    if infos == [] then (t, true)
    else
      var (t1, ok) := DeleteInfos(env, t, name, namespace, subnet, Init(infos));
      if ok then DeleteInfo(env, t1, name, namespace, subnet, Last(infos)) else (t1, false)
  }

  function NetworkDelete(env: Env, feed: Feed, s: State, name: string, namespace: string, subnet: string)
    : (State, bool)
  {
    var (t1, ok) := DeleteInfos(env, s.table, name, namespace, subnet,
                                ListPolicies(env, feed(s.tick), name, namespace));
    (State(t1, s.tick + 1), ok)
  }

  /**
    The replacement loop from line `pos` of the listing on, after `i`
    replacements: deletes rule number `i`, inserts the new rule at `pos`, and
    stops at an error or after two.
   */
  function ReplaceFrom(t: Table, chain: string, subnet: string, lines: seq<string>, pos: nat, i: nat): (Table, bool)
    requires pos <= |lines| && i < 2
    decreases |lines| - pos
  {
    if pos == |lines| then (t, true)
    else if !Contains(lines[pos], chain) then ReplaceFrom(t, chain, subnet, lines, pos + 1, i)
    else
      var (t1, e1) := DeleteNumber(t, BASE, i);
      if e1.Fail? then (t1, false)
      else
        var (t2, e2) := Insert(t1, BASE, pos, Rule(if i == 0 then Dst(subnet) else Src(subnet), chain));
        if e2.Fail? then (t2, false)
        else if i + 1 == 2 then (t2, true)
        else ReplaceFrom(t2, chain, subnet, lines, pos + 1, i + 1)
  }

  function NetworkUpdate(env: Env, feed: Feed, s: State, name: string, namespace: string): (State, bool) {
    var s1 := State(s.table, s.tick + 1);
    var known := feed(s.tick).networks;
    if (namespace, name) !in known || BASE !in s.table then (s1, false)
    else
      var (t, ok) := ReplaceFrom(s.table, NetName(env.md5, name, namespace), known[(namespace, name)],
                                 Listing(s.table, BASE), 0, 0);
      (State(t, s1.tick), ok)
  }

  /** The first hit is deleted by the number 0, which no rule has: nothing is ever replaced. */
  lemma {:induction false} ReplacesNothing(t: Table, chain: string, subnet: string, lines: seq<string>, pos: nat)
    requires pos <= |lines|
    ensures ReplaceFrom(t, chain, subnet, lines, pos, 0) == (t, !AnyContains(lines[pos..], chain))
    decreases |lines| - pos
  {
    hide Contains;
    if pos < |lines| {
      var rest := lines[pos..];
      assert rest[0] == lines[pos] && rest[1..] == lines[pos + 1..];
      if !Contains(lines[pos], chain) {
        ReplacesNothing(t, chain, subnet, lines, pos + 1);
        if AnyContains(rest, chain) {
          var k :| 0 <= k < |rest| && Contains(rest[k], chain);
          assert rest[1..][k - 1] == rest[k];
        }
        if AnyContains(rest[1..], chain) {
          var k :| 0 <= k < |rest[1..]| && Contains(rest[1..][k], chain);
          assert rest[k + 1] == rest[1..][k];
        }
      }
    }
  }

  /**
    What a replacement would do were the counter past 0: the rule of that number
    goes, the new one comes in at the line's position, and after two it is over.
   */
  lemma ReplacesOnce(t: Table, chain: string, subnet: string, lines: seq<string>, pos: nat)
    requires pos < |lines| && Contains(lines[pos], chain) && BASE in t && 1 <= pos <= |t[BASE]|
    requires Loadable(t, Rule(Src(subnet), chain))
    ensures var (u, ok) := ReplaceFrom(t, chain, subnet, lines, pos, 1);
            && ok && u.Keys == t.Keys && (forall d :: d in t && d != BASE ==> u[d] == t[d])
            && |u[BASE]| == |t[BASE]| && u[BASE][pos - 1] == Rule(Src(subnet), chain)
            && forall i :: 0 <= i < |t[BASE]| && i != pos - 1 ==>
               u[BASE][i] == t[BASE][if i < pos - 1 then i + 1 else i]
  {
    hide Contains, Cidr;
    DeleteMeans(t, BASE, 1);
    var t1 := DeleteNumber(t, BASE, 1).0;
    InsertMeans(t1, BASE, pos, Rule(Src(subnet), chain));
  }

  lemma NetworkUpdateIs(env: Env, feed: Feed, s: State, name: string, namespace: string)
    ensures NetworkUpdate(env, feed, s, name, namespace) ==
            (State(s.table, s.tick + 1),
             && (namespace, name) in feed(s.tick).networks
             && BASE in s.table
             && !AnyContains(Listing(s.table, BASE), NetName(env.md5, name, namespace)))
  {
    hide Contains, NetName, Listing, ReplaceFrom;
    var known := feed(s.tick).networks;
    if (namespace, name) in known && BASE in s.table {
      var lines := Listing(s.table, BASE);
      ReplacesNothing(s.table, NetName(env.md5, name, namespace), known[(namespace, name)], lines, 0);
      assert lines[0..] == lines;
    }
  }

  /** Once a policy fails, the rest of the list is not touched. */
  lemma {:induction false} AddInfosStops(env: Env, feed: Feed, s: State, name: string, namespace: string,
                                         subnet: string, infos: seq<PolicyInfo>, i: nat)
    requires i <= |infos| && !AddInfos(env, feed, s, name, namespace, subnet, infos[..i]).1
    ensures AddInfos(env, feed, s, name, namespace, subnet, infos) ==
            AddInfos(env, feed, s, name, namespace, subnet, infos[..i])
    decreases |infos| - i
  {
    if i == |infos| {
      assert infos[..i] == infos;
    } else {
      Prefix(infos, i);
      AddInfosStops(env, feed, s, name, namespace, subnet, infos, i + 1);
    }
  }

  /** Once a removal fails, the rest of the list is not touched. */
  lemma {:induction false} DeleteInfosStops(env: Env, t: Table, name: string, namespace: string, subnet: string,
                                            infos: seq<PolicyInfo>, i: nat)
    requires i <= |infos| && !DeleteInfos(env, t, name, namespace, subnet, infos[..i]).1
    ensures DeleteInfos(env, t, name, namespace, subnet, infos) ==
            DeleteInfos(env, t, name, namespace, subnet, infos[..i])
    decreases |infos| - i
  {
    if i == |infos| {
      assert infos[..i] == infos;
    } else {
      Prefix(infos, i);
      DeleteInfosStops(env, t, name, namespace, subnet, infos, i + 1);
    }
  }

  // ---------- Dispatch ----------

  function Field(key: map<string, string>, name: string): string {
    if name in key then key[name] else ""
  }

  /** An update carries the annotation that the policy had before, which its handler does not look at. */
  datatype Event =
    | PolicyAdded(name: string, namespace: string)
    | PolicyUpdated(name: string, namespace: string, previous: string)
    | PolicyDeleted(name: string, namespace: string, annotation: string)
    | NetworkAdded(name: string, namespace: string)
    | NetworkUpdated(name: string, namespace: string)
    | NetworkDeleted(name: string, namespace: string, subnet: string)
    | Unknown

  function EventOf(key: map<string, string>): Event {
    var kind, action := Field(key, "kind"), Field(key, "action");
    var name, namespace, args := Field(key, "name"), Field(key, "namespace"), Field(key, "args");
    if kind == "networkpolicy" then
      if action == "ADD" then PolicyAdded(name, namespace)
      else if action == "UPDATE" then PolicyUpdated(name, namespace, args)
      else if action == "DELETE" then PolicyDeleted(name, namespace, args)
      else Unknown
    else if kind == "logicalnetwork" then
      if action == "ADD" then NetworkAdded(name, namespace)
      else if action == "UPDATE" then NetworkUpdated(name, namespace)
      else if action == "DELETE" then NetworkDeleted(name, namespace, args)
      else Unknown
    else Unknown
  }

  /** The fields that the enqueue functions put into a key. */
  function FieldsOf(e: Event): map<string, string> {
    match e
    case PolicyAdded(name, namespace) => Fields("networkpolicy", name, namespace, "ADD", "")
    case PolicyUpdated(name, namespace, previous) => Fields("networkpolicy", name, namespace, "UPDATE", previous)
    case PolicyDeleted(name, namespace, annotation) => Fields("networkpolicy", name, namespace, "DELETE", annotation)
    case NetworkAdded(name, namespace) => Fields("logicalnetwork", name, namespace, "ADD", "")
    case NetworkUpdated(name, namespace) => Fields("logicalnetwork", name, namespace, "UPDATE", "")
    case NetworkDeleted(name, namespace, subnet) => Fields("logicalnetwork", name, namespace, "DELETE", subnet)
    case Unknown => map[]
  }

  function Fields(kind: string, name: string, namespace: string, action: string, args: string): map<string, string> {
    map["kind" := kind, "name" := name, "namespace" := namespace, "action" := action, "args" := args]
  }

  lemma FieldNamesDiffer()
    ensures "kind" != "name" && "kind" != "namespace" && "kind" != "action" && "kind" != "args"
    ensures "name" != "namespace" && "name" != "action" && "name" != "args"
    ensures "namespace" != "action" && "namespace" != "args" && "action" != "args"
    ensures "ADD" != "UPDATE" && "ADD" != "DELETE" && "UPDATE" != "DELETE" && "networkpolicy" != "logicalnetwork"
  {
    assert "kind"[0] != "name"[0] && "kind"[0] != "args"[0] && "name"[0] != "args"[0];
    assert "UPDATE"[0] != "DELETE"[0] && "networkpolicy"[0] != "logicalnetwork"[0];
  }

  /** Which handler the fields of a policy's key lead to. */
  lemma PolicyKeyLeadsTo(env: Env, feed: Feed, s: State, key: string, name: string, namespace: string, action: string,
                         args: string)
    requires env.decode(key) == Some(Fields("networkpolicy", name, namespace, action, args))
    ensures action == "ADD" ==> Sync(env, feed, s, key) == PolicyAdd(env, feed, s, name, namespace)
    ensures action == "UPDATE" ==> Sync(env, feed, s, key) == PolicyUpdate(env, feed, s, name, namespace)
    ensures action == "DELETE" ==> Sync(env, feed, s, key) == PolicyDelete(env, feed, s, name, namespace, args)
    ensures action !in {"ADD", "UPDATE", "DELETE"} ==> Sync(env, feed, s, key) == (s, true)
  {
    hide PolicyAdd, PolicyUpdate, PolicyDelete, NetworkAdd, NetworkUpdate, NetworkDelete;
    FieldNamesDiffer();
  }

  /** Which handler the fields of a logical network's key lead to. */
  lemma NetworkKeyLeadsTo(env: Env, feed: Feed, s: State, key: string, name: string, namespace: string, action: string,
                          args: string)
    requires env.decode(key) == Some(Fields("logicalnetwork", name, namespace, action, args))
    ensures action == "ADD" ==> Sync(env, feed, s, key) == NetworkAdd(env, feed, s, name, namespace)
    ensures action == "UPDATE" ==> Sync(env, feed, s, key) == NetworkUpdate(env, feed, s, name, namespace)
    ensures action == "DELETE" ==> Sync(env, feed, s, key) == NetworkDelete(env, feed, s, name, namespace, args)
    ensures action !in {"ADD", "UPDATE", "DELETE"} ==> Sync(env, feed, s, key) == (s, true)
  {
    hide PolicyAdd, PolicyUpdate, PolicyDelete, NetworkAdd, NetworkUpdate, NetworkDelete;
    FieldNamesDiffer();
  }

  /** A key that does not decode fails, one of any other kind succeeds, and neither does anything. */
  lemma OtherKeys(env: Env, feed: Feed, s: State, key: string)
    ensures env.decode(key) == None ==> Sync(env, feed, s, key) == (s, false)
    ensures env.decode(key).Some? &&
            ("kind" !in env.decode(key).value || env.decode(key).value["kind"] !in {"networkpolicy", "logicalnetwork"})
            ==> Sync(env, feed, s, key) == (s, true)
  {
    hide PolicyAdd, PolicyUpdate, PolicyDelete, NetworkAdd, NetworkUpdate, NetworkDelete;
    assert "" != "networkpolicy" && "" != "logicalnetwork";
  }

  /** A queued key reaches the handler it was queued for, with the arguments it was queued with. */
  lemma KeyRoundTrip(env: Env, feed: Feed, s: State, e: Event, key: string)
    requires env.decode(key) == Some(FieldsOf(e))
    ensures EventOf(FieldsOf(e)) == e && Sync(env, feed, s, key) == Handle(env, feed, s, e)
  {
    hide Handle;
    FieldNamesDiffer();
  }

  function Handle(env: Env, feed: Feed, s: State, e: Event): (State, bool) {
    match e
    case PolicyAdded(name, namespace) => PolicyAdd(env, feed, s, name, namespace)
    case PolicyUpdated(name, namespace, _) => PolicyUpdate(env, feed, s, name, namespace)
    case PolicyDeleted(name, namespace, annotation) => PolicyDelete(env, feed, s, name, namespace, annotation)
    case NetworkAdded(name, namespace) => NetworkAdd(env, feed, s, name, namespace)
    case NetworkUpdated(name, namespace) => NetworkUpdate(env, feed, s, name, namespace)
    case NetworkDeleted(name, namespace, subnet) => NetworkDelete(env, feed, s, name, namespace, subnet)
    case Unknown => (s, true)
  }

  /** syncHandler on one queue key. */
  function Sync(env: Env, feed: Feed, s: State, key: string): (State, bool) {
    match env.decode(key)
    case None => (s, false)
    case Some(fields) => Handle(env, feed, s, EventOf(fields))
  }
}
