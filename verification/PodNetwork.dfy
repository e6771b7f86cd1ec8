/**
  The pod ADD/DEL planner: which plugin is asked for which interface, how the
  choice sticks to the pod, and how the addresses handed out are recorded.
 */
module PodNetwork {
  import opened Options
  import opened Sequences
  import opened Text

  datatype PluginInfo = PluginInfo(pluginName: string, ifName: string, subnet: string, referNic: string)

  // ---------- Networks from the cluster ----------

  datatype LogicalNetwork = LogicalNetwork(physicalNet: string, subSubnet: string, plugin: string)

  datatype PhysicalNetwork = PhysicalNetwork(referNic: string, plugin: string, subnet: string, dedicated: bool)

  datatype Cluster = Cluster(
    logical: (string, string) -> Option<LogicalNetwork>,
    physical: (string, string) -> Option<PhysicalNetwork>)

  /** GetPluginInfoFromPhysicalNw: on an error the information comes back as it was. */
  function FromPhysical(c: Cluster, name: string, namespace: string, info: PluginInfo): PluginInfo {
    match c.physical(namespace, name)
    case None => info
    case Some(p) =>
      PluginInfo(if p.dedicated then p.plugin else info.pluginName, info.ifName, p.subnet, p.referNic)
  }

  predicate Named(entry: string) { Contains(entry, ":") }

  /** How many entries leave the interface to Genie. */
  function Unnamed(entries: seq<string>): nat {
    if entries == [] then 0 else Unnamed(Init(entries)) + if Named(Last(entries)) then 0 else 1
  }

  function Eth(k: nat): string { "eth" + Itoa(k) }

  lemma SplitNamed(entry: string)
    requires Named(entry)
    ensures |Split(entry, ":")| >= 2
  {
  }

  /** Network and interface of one entry; the k-th unnamed entry gets the k-th interface. */
  function NetworkAndInterface(entry: string, k: nat): (string, string) {
    if Named(entry) then
      SplitNamed(entry);
      (Split(entry, ":")[0], Split(entry, ":")[1])
    else (entry, Eth(k))
  }

  /** What one entry of the annotation amounts to, on its own. */
  function EntryInfo(c: Cluster, namespace: string, entry: string, k: nat): Option<PluginInfo> {
    var (network, ifName) := NetworkAndInterface(entry, k);
    match c.logical(namespace, network)
    case None => None
    case Some(l) =>
      if l.physicalNet == "" then None
      else Some(FromPhysical(c, l.physicalNet, namespace, PluginInfo(l.plugin, ifName, "", "")))
  }

  /** All entries up to the first that fails. */
  function EntryInfos(c: Cluster, namespace: string, entries: seq<string>): (seq<PluginInfo>, bool) {
    if entries == [] then ([], true)
    else
      var (before, ok) := EntryInfos(c, namespace, Init(entries));
      if !ok then (before, false)
      else
        match EntryInfo(c, namespace, Last(entries), Unnamed(Init(entries)))
        case None => (before, false)
        case Some(info) => (before + [info], true)
  }

  lemma {:induction false} EntryInfosStops(c: Cluster, namespace: string, entries: seq<string>, i: nat)
    requires i <= |entries| && !EntryInfos(c, namespace, entries[..i]).1
    ensures EntryInfos(c, namespace, entries) == EntryInfos(c, namespace, entries[..i])
    decreases |entries| - i
  {
    hide EntryInfo;
    if i == |entries| {
      assert entries[..i] == entries;
    } else {
      Prefix(entries, i);
      EntryInfosStops(c, namespace, entries, i + 1);
    }
  }

  /** The interfaces given out so far. */
  ghost predicate GivenOut(used: set<string>, k: nat) {
    forall s :: s in used <==> exists j: nat :: j < k && s == Eth(j)
  }

  lemma EthInjective(a: nat, b: nat)
    requires Eth(a) == Eth(b)
    ensures a == b
  {
    ItoaInjective("eth", a, b);
  }

  lemma NextIsFree(used: set<string>, k: nat)
    requires GivenOut(used, k)
    ensures Eth(k) !in used && forall j: nat :: j < k ==> Eth(j) in used
  {
    hide Eth;
    if Eth(k) in used {
      var j: nat :| j < k && Eth(k) == Eth(j);
      EthInjective(k, j);
    }
  }

  /** The allocator: the search ends, and finds the number of unnamed entries so far. */
  method NextInterface(start: nat, used: set<string>, ghost k: nat) returns (i: nat)
    requires start <= k && GivenOut(used, k)
    ensures i == k
  {
    hide Eth;
    NextIsFree(used, k);
    i := start;
    while Eth(i) in used
      invariant i <= k
      decreases k - i
    {
      i := i + 1;
    }
  }

  /** One entry of the annotation; `carried` is the plugin information left over from the entry before. */
  method VisitEntry(c: Cluster, namespace: string, entry: string, carried: PluginInfo, start: nat, used: set<string>,
                    ghost k: nat)
    returns (r: Option<PluginInfo>, info: PluginInfo, i: nat, used': set<string>)
    requires start <= k && GivenOut(used, k) && carried.subnet == "" && carried.referNic == ""
    ensures r == EntryInfo(c, namespace, entry, k)
    ensures info.subnet == "" && info.referNic == ""
    ensures var k' := if Named(entry) then k else k + 1; i <= k' && GivenOut(used', k')
  {
    hide FromPhysical, Split, Contains, Eth, GivenOut;
    info, i, used' := carried, start, used;
    var networkName: string;
    if Named(entry) {
      SplitNamed(entry);
      var parts := Split(entry, ":");
      networkName := parts[0];
      info := info.(ifName := parts[1]);
    } else {
      networkName := entry;
      i := NextInterface(i, used, k);
      info := info.(ifName := Eth(i));
      used' := used + {Eth(i)};
      GivenOneMore(used, used', k);
    }
    var l := c.logical(namespace, networkName);
    if l.None? || l.value.physicalNet == "" {
      return None, info, i, used';
    }
    info := info.(pluginName := l.value.plugin);
    r := Some(FromPhysical(c, l.value.physicalNet, namespace, info));
  }

  /**
    GetPluginInfoFromNwAnnot: interfaces are given out in order, and no subnet
    or NIC is carried from one entry to the next.
   */
  method PluginInfoFromNetworks(c: Cluster, networkAnnot: string, namespace: string)
    returns (infos: seq<PluginInfo>, ok: bool)
    ensures (infos, ok) == EntryInfos(c, namespace, Split(networkAnnot, ","))
  {
    hide EntryInfo, Split, Contains, GivenOut;
    var entries := Split(networkAnnot, ",");
    var used: set<string> := {};
    var i: nat := 0;
    var info := PluginInfo("", "", "", "");
    infos := [];
    NoneGivenOut();
    for n := 0 to |entries|
      invariant (infos, true) == EntryInfos(c, namespace, entries[..n])
      invariant i <= Unnamed(entries[..n]) && GivenOut(used, Unnamed(entries[..n]))
      invariant info.subnet == "" && info.referNic == ""
    {
      Prefix(entries, n);
      var r: Option<PluginInfo>;
      r, info, i, used := VisitEntry(c, namespace, entries[n], info, i, used, Unnamed(entries[..n]));
      if r.None? {
        EntryInfosStops(c, namespace, entries, n + 1);
        return infos, false;
      }
      infos := infos + [r.value];
    }
    assert entries[..|entries|] == entries;
    return infos, true;
  }

  lemma NoneGivenOut()
    ensures GivenOut({}, 0)
  {
  }

  lemma GivenOneMore(before: set<string>, after: set<string>, k: nat)
    requires after == before + {Eth(k)} && GivenOut(before, k)
    ensures GivenOut(after, k + 1)
  {
    hide Eth;
    forall s ensures s in after <==> exists j: nat :: j < k + 1 && s == Eth(j) {
      if s in before {
        var j: nat :| j < k && s == Eth(j);
        assert j < k + 1;
      }
      if j: nat :| j < k + 1 && s == Eth(j) {
        assert j < k || j == k;
      }
    }
  }

  /** Each entry is resolved on its own: nothing but the number of unnamed entries before it matters. */
  lemma {:induction false} EntriesAreIndependent(c: Cluster, namespace: string, entries: seq<string>)
    requires EntryInfos(c, namespace, entries).1
    ensures var infos := EntryInfos(c, namespace, entries).0;
            |infos| == |entries| && forall i :: 0 <= i < |entries| ==>
              Some(infos[i]) == EntryInfo(c, namespace, entries[i], Unnamed(entries[..i]))
  {
    hide EntryInfo, Named;
    if entries != [] {
      EntriesAreIndependent(c, namespace, Init(entries));
      var infos := EntryInfos(c, namespace, entries).0;
      forall i | 0 <= i < |entries|
        ensures Some(infos[i]) == EntryInfo(c, namespace, entries[i], Unnamed(entries[..i]))
      {
        assert i < |entries| - 1 ==> Init(entries)[i] == entries[i] && Init(entries)[..i] == entries[..i];
        assert entries[..|entries| - 1] == Init(entries);
      }
    }
  }

  /** The k-th unnamed network gets `eth(k-1)`; interfaces that Genie gives out are never given out twice. */
  lemma InterfacesInOrder(c: Cluster, namespace: string, entries: seq<string>, i: nat, j: nat)
    requires EntryInfos(c, namespace, entries).1 && i < j < |entries| && !Named(entries[i]) && !Named(entries[j])
    ensures var infos := EntryInfos(c, namespace, entries).0;
            |infos| == |entries| && infos[i].ifName == Eth(Unnamed(entries[..i])) && infos[i].ifName != infos[j].ifName
  {
    hide Named, Eth, EntryInfos;
    EntriesAreIndependent(c, namespace, entries);
    UnnamedGrows(entries, i, j);
    if Eth(Unnamed(entries[..i])) == Eth(Unnamed(entries[..j])) {
      EthInjective(Unnamed(entries[..i]), Unnamed(entries[..j]));
    }
  }

  lemma {:induction false} UnnamedGrows(entries: seq<string>, i: nat, j: nat)
    requires i < j <= |entries| && !Named(entries[i])
    ensures Unnamed(entries[..i]) < Unnamed(entries[..j])
    decreases j
  {
    hide Named;
    Prefix(entries, j - 1);
    if i < j - 1 { UnnamedGrows(entries, i, j - 1); }
  }

  // ---------- Parsing the pod's annotations ----------

  type Annotations = map<string, string>

  function Annot(a: Annotations, key: string): string {
    if key in a then a[key] else ""
  }

  const CNI := "cni"
  const NETWORKS := "networks"
  const MULTI_IP := "multi-ip-preferences"

  /** The names that the usage-based choice can return. */
  const SMART_NAMES: set<string> := {"weave", "flannel", "calico"}

  function Plain(name: string): PluginInfo { PluginInfo(name, "", "", "") }

  function PlainAll(names: seq<string>): seq<PluginInfo> {
    seq(|names|, i requires 0 <= i < |names| => Plain(names[i]))
  }

  function DefaultPlugin(configured: string): string {
    if configured == "" then "weave" else configured
  }

  datatype Config = Config(cluster: Cluster, namespace: string, defaultPlugin: string)

  /** The pod asks for no plugin and no network: Genie chooses. */
  predicate LeavesChoice(a: Annotations) {
    a != map[] && Trim(Annot(a, CNI)) == "" && Annot(a, NETWORKS) == ""
  }

  /**
    The plugins asked for, whether parsing succeeded, and the annotations
    afterwards; a smart choice is patched into `cni`.
   */
  function Plan(cfg: Config, a: Annotations, smart: Option<string>): (seq<PluginInfo>, bool, Annotations) {
    if a == map[] then ([Plain(DefaultPlugin(cfg.defaultPlugin))], true, a)
    else if Trim(Annot(a, CNI)) != "" then (PlainAll(Split(Annot(a, CNI), ",")), true, a)
    else if Annot(a, NETWORKS) != "" then
      var (infos, ok) := EntryInfos(cfg.cluster, cfg.namespace, Split(Trim(Annot(a, NETWORKS)), ","));
      (infos, ok, a)
    else
      match smart
      case None => ([], false, a)
      case Some(cns) => ([Plain(cns)], true, a[CNI := cns])
  }

  /** One call of a plugin: the interface and the plugin's name. */
  datatype Request = Request(ifName: string, pluginName: string)

  function RequestOf(infos: seq<PluginInfo>, i: nat): Request
    requires i < |infos|
  {
    Request(if infos[i].ifName != "" then infos[i].ifName else Eth(i), infos[i].pluginName)
  }

  function Requests(infos: seq<PluginInfo>): seq<Request> {
    seq(|infos|, i requires 0 <= i < |infos| => RequestOf(infos, i))
  }

  // ---------- Recording addresses ----------

  datatype IpPreference = IpPreference(ip: string, device: string)

  /** The multi-ip-preferences annotation, decoded; `ips` may be absent. */
  datatype Preferences = Preferences(multiEntry: int, ips: Option<map<string, IpPreference>>)

  datatype Codec = Codec(decode: string -> Preferences, encode: Preferences -> string)

  /** JSON round trip of the preferences, whose text is never empty. */
  ghost predicate RoundTrips(j: Codec) {
    forall p :: j.decode(j.encode(p)) == p && j.encode(p) != ""
  }

  /** What a plugin call gave back: nothing, a result that cannot be converted, or addresses. */
  datatype AddResult = NoResult | Unconvertible | Addresses(ips: seq<string>)

  datatype Recorded = Recorded(text: string) | NotRecorded | Panics

  /** UpdatePodDefinition, up to and including the patch (`patched` says whether the API server took it). */
  function Record(j: Codec, ifName: string, result: AddResult, text: string, patched: bool): Recorded {
    if text == "" then NotRecorded
    else if result.NoResult? then Panics
    else if result.Unconvertible? then NotRecorded
    else
      var p := j.decode(text);
      var parts := Split(ifName, "eth");
      if |parts| < 2 || p.ips.None? || result.ips == [] then Panics
      else
        var key := "ip" + Numeral(Atoi(parts[1]) + 1);
        var ips := p.ips.value[key := IpPreference(result.ips[0], ifName)];
        if patched then Recorded(j.encode(Preferences(p.multiEntry + 1, Some(ips)))) else NotRecorded
  }

  /** The annotation text carried through the loop, the annotations of the pod, and how far the loop got. */
  datatype Progress = Progress(text: string, annotations: Annotations, requested: seq<Request>, alive: bool,
                               failed: bool)

  /** An element fails if its plugin does, or if there is a record to keep and it could not be kept. */
  predicate Fails(result: AddResult, text: string, r: Recorded) {
    result.NoResult? || (text != "" && r.NotRecorded?)
  }

  /**
    What the i-th plugin call of an ADD gives, whether its record is patched in,
    and whether the i-th deletion succeeds.
   */
  datatype World = World(results: nat -> AddResult, patched: nat -> bool, deleted: nat -> bool)

  function AddOne(j: Codec, w: World, p: Progress, infos: seq<PluginInfo>, i: nat): Progress
    requires i < |infos|
  {
    if !p.alive then p
    else
      var r := RequestOf(infos, i);
      var requested := p.requested + [r];
      var recorded := Record(j, r.ifName, w.results(i), p.text, w.patched(i));
      var failed := p.failed || Fails(w.results(i), p.text, recorded);
      match recorded
      case Panics => p.(requested := requested, alive := false)
      case NotRecorded => p.(requested := requested, failed := failed)
      case Recorded(text) => Progress(text, p.annotations[MULTI_IP := text], requested, true, failed)
  }

  function AddFirst(j: Codec, w: World, p: Progress, infos: seq<PluginInfo>, n: nat): Progress
    requires n <= |infos|
  {
    if n == 0 then p else AddOne(j, w, AddFirst(j, w, p, infos, n - 1), infos, n - 1)
  }

  /** AddPodNetwork: the plan, then one plugin call and one record per element. */
  function Add(cfg: Config, j: Codec, w: World, a: Annotations, smart: Option<string>): Progress {
    var (infos, ok, a1) := Plan(cfg, a, smart);
    if !ok then Progress("", a1, [], true, true)
    else AddFirst(j, w, Progress(Annot(a1, MULTI_IP), a1, [], true, false), infos, |infos|)
  }

  /** DeletePodNetwork: the calls it makes. */
  function Delete(cfg: Config, a: Annotations, smart: Option<string>): seq<Request> {
    var (infos, ok, _) := Plan(cfg, a, smart);
    if ok then Requests(infos) else []
  }

  // ---------- DEL mirrors ADD ----------

  /** Two annotation maps that parse alike. */
  ghost predicate ParseAlike(a: Annotations, b: Annotations) {
    && (a == map[] <==> b == map[])
    && Annot(a, CNI) == Annot(b, CNI) && Annot(a, NETWORKS) == Annot(b, NETWORKS)
  }

  lemma {:induction false} AddFirstFrame(j: Codec, w: World, p: Progress, infos: seq<PluginInfo>, n: nat)
    requires n <= |infos| && p.alive && p.requested == []
    requires p.text != "" ==> p.annotations != map[]
    ensures var q := AddFirst(j, w, p, infos, n);
            && ParseAlike(p.annotations, q.annotations) && (q.text != "" ==> q.annotations != map[])
            && (p.text == "" ==> q.text == "" && q.annotations == p.annotations && q.alive)
            && |q.requested| <= n && q.requested == Requests(infos)[..|q.requested|]
            && (q.alive ==> |q.requested| == n)
  {
    hide Record, Eth, Requests;
    if n > 0 {
      AddFirstFrame(j, w, p, infos, n - 1);
      var q := AddFirst(j, w, p, infos, n - 1);
      RequestsAt(infos, n - 1);
      if q.alive {
        RecordNeedsText(j, RequestOf(infos, n - 1).ifName, w.results(n - 1), q.text, w.patched(n - 1));
        KeysDiffer();
        assert q.requested + [RequestOf(infos, n - 1)] == Requests(infos)[..n];
      }
    }
  }

  lemma KeysDiffer()
    ensures CNI != MULTI_IP && NETWORKS != MULTI_IP
  {
    assert |CNI| == 3 && |NETWORKS| == 8 && |MULTI_IP| == 20;
  }

  lemma RequestsAt(infos: seq<PluginInfo>, i: nat)
    requires i < |infos|
    ensures |Requests(infos)| == |infos| && Requests(infos)[..i + 1] == Requests(infos)[..i] + [RequestOf(infos, i)]
  {
    hide Eth;
  }

  lemma RecordNeedsText(j: Codec, ifName: string, result: AddResult, text: string, patched: bool)
    ensures text == "" ==> Record(j, ifName, result, text, patched) == NotRecorded
  {
  }

  lemma SmartNameFacts(cns: string)
    requires cns in SMART_NAMES
    ensures Trim(cns) != "" && Split(cns, ",") == [cns]
  {
    hide Trim, Split, Contains;
    assert |cns| >= 5 && !IsSpace(cns[0]) && !IsSpace(cns[|cns| - 1]) && ',' !in cns by {
      if cns == "weave" {} else if cns == "flannel" {} else { assert cns == "calico"; }
    }
    TrimStays(cns);
    NoCharNoOccurrence(cns, ",");
    SplitWithoutSeparator(cns, ",");
  }

  lemma PlanAlike(cfg: Config, a: Annotations, b: Annotations, s1: Option<string>, s2: Option<string>)
    requires ParseAlike(a, b) && !LeavesChoice(a)
    ensures Plan(cfg, a, s1).0 == Plan(cfg, b, s2).0 && Plan(cfg, a, s1).1 == Plan(cfg, b, s2).1
  {
    hide Split, Trim, EntryInfos;
  }

  /** A smart choice sticks: once patched in, every later parse returns just that plugin, whatever the usage then is. */
  lemma SmartChoiceSticks(cfg: Config, a: Annotations, cns: string, b: Annotations, later: Option<string>)
    requires LeavesChoice(a) && cns in SMART_NAMES
    requires ParseAlike(a[CNI := cns], b)
    ensures Plan(cfg, a, Some(cns)) == ([Plain(cns)], true, a[CNI := cns])
    ensures Plan(cfg, b, later) == ([Plain(cns)], true, b) && !LeavesChoice(b)
  {
    hide EntryInfos, Trim, Split;
    SmartNameFacts(cns);
    assert PlainAll([cns]) == [Plain(cns)];
    assert Annot(b, CNI) == cns;
  }

  /**
    DEL mirrors ADD.  With the cluster unchanged but for ADD's own patches:
    if ADD could parse the annotations, DEL visits exactly the plan's
    (interface, plugin) pairs, and ADD has requested all of them, or, if it
    died while recording, the first few.  If ADD could not parse them it
    requested nothing, and DEL visits nothing either, unless the pod leaves
    the choice to Genie and only DEL succeeded in choosing.
   */
  lemma DelMirrorsAdd(cfg: Config, j: Codec, w: World, a: Annotations, atAdd: Option<string>, atDel: Option<string>)
    requires atAdd.Some? ==> atAdd.value in SMART_NAMES
    ensures var (infos, ok, _) := Plan(cfg, a, atAdd);
            var p := Add(cfg, j, w, a, atAdd);
            var visited := Delete(cfg, p.annotations, atDel);
            && (ok ==> visited == Requests(infos))
            && (ok && p.alive ==> p.requested == visited)
            && (ok ==> |p.requested| <= |visited| && p.requested == visited[..|p.requested|])
            && (!ok ==> p.requested == [])
            && (!ok ==> (visited == [] <==> !(LeavesChoice(a) && atDel.Some?)))
  {
    hide EntryInfos, Split, Trim, Record, Itoa;
    var (infos, ok, a1) := Plan(cfg, a, atAdd);
    var p := Add(cfg, j, w, a, atAdd);
    if ok {
      AddFirstFrame(j, w, Progress(Annot(a1, MULTI_IP), a1, [], true, false), infos, |infos|);
      assert |Requests(infos)| == |infos| && Requests(infos)[..|infos|] == Requests(infos);
      if LeavesChoice(a) {
        SmartChoiceSticks(cfg, a, atAdd.value, p.annotations, atDel);
      } else {
        PlanAlike(cfg, a1, p.annotations, atAdd, atDel);
      }
    } else {
      assert p.annotations == a;
      if LeavesChoice(a) && atDel.Some? {
        assert |Requests([Plain(atDel.value)])| == 1;
      }
    }
  }

  // ---------- The multi-IP record ----------

  function IpKey(k: nat): string { "ip" + Itoa(k) }

  /** The preferences after the first `n` of a list of plain plugins have been recorded. */
  function RecordedIps(p: Preferences, ips: nat -> string, n: nat): Preferences
    requires p.ips.Some?
    ensures RecordedIps(p, ips, n).ips.Some?
  {
    if n == 0 then p
    else
      var q := RecordedIps(p, ips, n - 1);
      Preferences(q.multiEntry + 1, Some(q.ips.value[IpKey(n) := IpPreference(ips(n - 1), Eth(n - 1))]))
  }

  /** The record counts every plugin and lists `ip1`..`ipn` with `eth0`..`eth(n-1)`; other entries stay. */
  lemma {:induction false} RecordedIpsMeans(p: Preferences, ips: nat -> string, n: nat)
    requires p.ips.Some?
    ensures var q := RecordedIps(p, ips, n);
            && q.multiEntry == p.multiEntry + n
            && (forall k: nat :: 1 <= k <= n ==>
                IpKey(k) in q.ips.value && q.ips.value[IpKey(k)] == IpPreference(ips(k - 1), Eth(k - 1)))
            && (forall key :: key in p.ips.value && (forall k: nat :: 1 <= k <= n ==> key != IpKey(k)) ==>
                  key in q.ips.value && q.ips.value[key] == p.ips.value[key])
  {
    hide IpKey, Eth;
    if n > 0 {
      RecordedIpsMeans(p, ips, n - 1);
      var q, r := RecordedIps(p, ips, n - 1), RecordedIps(p, ips, n);
      forall k: nat | 1 <= k <= n
        ensures IpKey(k) in r.ips.value && r.ips.value[IpKey(k)] == IpPreference(ips(k - 1), Eth(k - 1))
      {
        IpKeyInjective(k, n);
      }
    }
  }

  lemma IpKeyInjective(a: nat, b: nat)
    ensures IpKey(a) == IpKey(b) ==> a == b
  {
    if IpKey(a) == IpKey(b) { ItoaInjective("ip", a, b); }
  }

  lemma InterfaceNumber(k: nat)
    ensures Split(Eth(k), "eth") == ["", Itoa(k)]
    ensures "ip" + Numeral(Atoi(Itoa(k)) + 1) == IpKey(k + 1)
  {
    var s := Eth(k);
    assert OccursAt(s, "eth", 0);
    assert Find(s, "eth") == 0;
    assert s[..0] == "" && s[3..] == Itoa(k);
    assert 'e' !in Itoa(k);
    NoCharNoOccurrence(Itoa(k), "eth");
    SplitWithoutSeparator(Itoa(k), "eth");
    AtoiItoa(k);
  }

  /** One successful plugin of a plain list adds its line. */
  lemma RecordStep(j: Codec, p: Preferences, ips: nat -> string, n: nat, text: string, more: seq<string>)
    requires RoundTrips(j) && p.ips.Some? && text != "" && j.decode(text) == RecordedIps(p, ips, n)
    ensures Record(j, Eth(n), Addresses([ips(n)] + more), text, true) == Recorded(j.encode(RecordedIps(p, ips, n + 1)))
  {
    hide Split, Itoa, Atoi, Numeral, Eth, IpKey;
    InterfaceNumber(n);
  }

  /** Every plugin call gives addresses, the i-th one `ips(i)` first, and every record is patched in. */
  ghost predicate AllSucceed(w: World, ips: nat -> string) {
    forall i: nat ::
      w.patched(i) && w.results(i).Addresses? && w.results(i).ips != [] && w.results(i).ips[0] == ips(i)
  }

  /** The multi-IP record of an ADD over a list of `n` plain plugins that all succeed. */
  lemma {:induction false} MultiIpRecord(j: Codec, w: World, infos: seq<PluginInfo>, a: Annotations,
                                         ips: nat -> string, n: nat)
    requires RoundTrips(j) && n <= |infos|
    requires forall i :: 0 <= i < |infos| ==> infos[i].ifName == ""
    requires AllSucceed(w, ips)
    requires Annot(a, MULTI_IP) != "" && j.decode(Annot(a, MULTI_IP)).ips.Some?
    ensures var p := j.decode(Annot(a, MULTI_IP));
            var q := AddFirst(j, w, Progress(Annot(a, MULTI_IP), a, [], true, false), infos, n);
            q.alive && q.text != "" && j.decode(q.text) == RecordedIps(p, ips, n) &&
              Annot(q.annotations, MULTI_IP) == q.text
  {
    hide Record, Eth, RecordedIps;
    var p := j.decode(Annot(a, MULTI_IP));
    if n == 0 {
      assert RecordedIps(p, ips, 0) == p by { NothingRecorded(p, ips); }
    } else {
      MultiIpRecord(j, w, infos, a, ips, n - 1);
      var q := AddFirst(j, w, Progress(Annot(a, MULTI_IP), a, [], true, false), infos, n - 1);
      var more := w.results(n - 1).ips[1..];
      assert w.results(n - 1) == Addresses([ips(n - 1)] + more);
      RecordStep(j, p, ips, n - 1, q.text, more);
      assert RequestOf(infos, n - 1).ifName == Eth(n - 1);
      assert w.patched(n - 1) == true;
    }
  }

  /** An ADD whose pod lists plugins in `cni`: the annotation ends up with one line per plugin. */
  lemma CniListIsRecorded(cfg: Config, j: Codec, w: World, a: Annotations, smart: Option<string>, ips: nat -> string)
    requires RoundTrips(j) && Trim(Annot(a, CNI)) != ""
    requires AllSucceed(w, ips)
    requires Annot(a, MULTI_IP) != "" && j.decode(Annot(a, MULTI_IP)).ips.Some?
    ensures var n := |Split(Annot(a, CNI), ",")|;
            var q := Add(cfg, j, w, a, smart);
            && q.alive && |q.requested| == n
            && j.decode(Annot(q.annotations, MULTI_IP)) == RecordedIps(j.decode(Annot(a, MULTI_IP)), ips, n)
  {
    hide Split, Trim, EntryInfos, Record, RecordedIps, RoundTrips;
    var infos := PlainAll(Split(Annot(a, CNI), ","));
    AddFirstFrame(j, w, Progress(Annot(a, MULTI_IP), a, [], true, false), infos, |infos|);
    MultiIpRecord(j, w, infos, a, ips, |infos|);
  }

  lemma NothingRecorded(p: Preferences, ips: nat -> string)
    requires p.ips.Some?
    ensures RecordedIps(p, ips, 0) == p
  {
  }
}
