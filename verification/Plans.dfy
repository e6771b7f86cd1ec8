/**
  The pod planner spelled out: what each form of the annotations asks for, in
  terms of the cluster's objects, and when an ADD succeeds.
 */
module Plans {
  import opened Options
  import opened Sequences
  import opened Text
  import opened PodNetwork

  // ---------- Entries of the networks annotation ----------

  /** The network exists and names a physical network. */
  ghost predicate Resolvable(c: Cluster, namespace: string, network: string) {
    c.logical(namespace, network).Some? && c.logical(namespace, network).value.physicalNet != ""
  }

  /**
    The element asks for the interface, and has the plugin, subnet and NIC that
    the network's objects give: the physical network's plugin if that is
    dedicated, else the logical network's.
   */
  ghost predicate Describes(c: Cluster, namespace: string, network: string, ifName: string, info: PluginInfo) {
    && Resolvable(c, namespace, network)
    && var l := c.logical(namespace, network).value;
    && info.ifName == ifName
    && match c.physical(namespace, l.physicalNet)
       case None => info.pluginName == l.plugin && info.subnet == "" && info.referNic == ""
       case Some(p) =>
         && info.pluginName == (if p.dedicated then p.plugin else l.plugin)
         && info.subnet == p.subnet && info.referNic == p.referNic
  }

  /** How an entry is written: the network, and the interface behind a colon if one is wanted. */
  function EntryText(network: string, ifName: Option<string>): string {
    if ifName.Some? then network + ":" + ifName.value else network
  }

  lemma EntryTextMeans(network: string, ifName: Option<string>)
    requires ':' !in network && (ifName.Some? ==> ':' !in ifName.value)
    ensures Named(EntryText(network, ifName)) <==> ifName.Some?
    ensures ifName.Some? ==> Split(EntryText(network, ifName), ":") == [network, ifName.value]
  {
    hide Split;
    assert [':'] == ":";
    if ifName.Some? {
      var entry := EntryText(network, ifName);
      assert OccursAt(entry, ":", |network|);
      SplitAtSeparator(network, ifName.value, ':');
      NoCharNoOccurrence(ifName.value, ":");
      SplitWithoutSeparator(ifName.value, ":");
    } else {
      NoCharNoOccurrence(network, ":");
    }
  }

  /** One entry: its network's objects, and the named interface or the next free one. */
  lemma EntryMeans(c: Cluster, namespace: string, network: string, ifName: Option<string>, k: nat)
    requires ':' !in network && (ifName.Some? ==> ':' !in ifName.value)
    ensures EntryInfo(c, namespace, EntryText(network, ifName), k).Some? <==> Resolvable(c, namespace, network)
    ensures EntryInfo(c, namespace, EntryText(network, ifName), k).Some? ==>
              Describes(c, namespace, network, if ifName.Some? then ifName.value else "eth" + Itoa(k),
                        EntryInfo(c, namespace, EntryText(network, ifName), k).value)
  {
    hide Split, Contains, EntryText, Itoa;
    EntryTextMeans(network, ifName);
    if ifName.None? { assert EntryText(network, ifName) == network by { UnnamedText(network); } }
  }

  lemma UnnamedText(network: string)
    ensures EntryText(network, None) == network
  {
  }

  /** How many of the entries leave the interface open. */
  function Open(ifNames: seq<Option<string>>): nat {
    if ifNames == [] then 0 else Open(Init(ifNames)) + if Last(ifNames).None? then 1 else 0
  }

  /** Networks and interfaces as they can be written in an annotation. */
  ghost predicate Writable(networks: seq<string>, ifNames: seq<Option<string>>) {
    && |networks| == |ifNames| > 0
    && (forall i :: 0 <= i < |networks| ==> ':' !in networks[i] && ',' !in networks[i])
    && forall i :: 0 <= i < |ifNames| && ifNames[i].Some? ==> ':' !in ifNames[i].value && ',' !in ifNames[i].value
  }

  function EntryTexts(networks: seq<string>, ifNames: seq<Option<string>>): (entries: seq<string>)
    requires |networks| == |ifNames|
    ensures |entries| == |networks| && forall i :: 0 <= i < |entries| ==>
            entries[i] == EntryText(networks[i], ifNames[i])
  {
    seq(|networks|, i requires 0 <= i < |networks| => EntryText(networks[i], ifNames[i]))
  }

  lemma {:induction false} UnnamedIsOpen(networks: seq<string>, ifNames: seq<Option<string>>, n: nat)
    requires Writable(networks, ifNames) && n <= |networks|
    ensures Unnamed(EntryTexts(networks, ifNames)[..n]) == Open(ifNames[..n])
  {
    hide Named, EntryText;
    if n > 0 {
      UnnamedIsOpen(networks, ifNames, n - 1);
      Prefix(EntryTexts(networks, ifNames), n - 1);
      Prefix(ifNames, n - 1);
      EntryTextMeans(networks[n - 1], ifNames[n - 1]);
    }
  }

  /** The interface of the i-th entry. */
  function Interface(ifNames: seq<Option<string>>, i: nat): string
    requires i < |ifNames|
  {
    if ifNames[i].Some? then ifNames[i].value else "eth" + Itoa(Open(ifNames[..i]))
  }

  ghost predicate Described(c: Cluster, namespace: string, networks: seq<string>, ifNames: seq<Option<string>>,
                            infos: seq<PluginInfo>)
    requires |infos| <= |networks| == |ifNames|
  {
    forall i :: 0 <= i < |infos| ==> Describes(c, namespace, networks[i], Interface(ifNames, i), infos[i])
  }

  lemma DescribedSnoc(c: Cluster, namespace: string, networks: seq<string>, ifNames: seq<Option<string>>,
                      infos: seq<PluginInfo>, info: PluginInfo)
    requires |infos| < |networks| == |ifNames| && Described(c, namespace, networks, ifNames, infos)
    requires Describes(c, namespace, networks[|infos|], Interface(ifNames, |infos|), info)
    ensures Described(c, namespace, networks, ifNames, infos + [info])
  {
    hide Describes, Interface;
  }

  lemma {:induction false} EntriesMean(c: Cluster, namespace: string, networks: seq<string>,
                                       ifNames: seq<Option<string>>, n: nat)
    requires Writable(networks, ifNames) && n <= |networks|
    ensures var (infos, ok) := EntryInfos(c, namespace, EntryTexts(networks, ifNames)[..n]);
            && |infos| <= n && (ok <==> |infos| == n)
            && (!ok ==> !Resolvable(c, namespace, networks[|infos|]))
            && Described(c, namespace, networks, ifNames, infos)
    ensures EntryInfos(c, namespace, EntryTexts(networks, ifNames)[..n]).1 ==>
              forall i :: 0 <= i < n ==> Resolvable(c, namespace, networks[i])
  {
    hide EntryInfo, EntryText, Describes, Resolvable, Itoa, Described, Open;
    if n == 0 {
      NothingDescribed(c, namespace, networks, ifNames);
    } else {
      EntriesMean(c, namespace, networks, ifNames, n - 1);
      Prefix(EntryTexts(networks, ifNames), n - 1);
      UnnamedIsOpen(networks, ifNames, n - 1);
      EntryMeans(c, namespace, networks[n - 1], ifNames[n - 1], Open(ifNames[..n - 1]));
      var (infos, ok) := EntryInfos(c, namespace, EntryTexts(networks, ifNames)[..n - 1]);
      var info := EntryInfo(c, namespace, EntryText(networks[n - 1], ifNames[n - 1]), Open(ifNames[..n - 1]));
      if ok && info.Some? { DescribedSnoc(c, namespace, networks, ifNames, infos, info.value); }
    }
  }

  lemma NothingDescribed(c: Cluster, namespace: string, networks: seq<string>, ifNames: seq<Option<string>>)
    requires |networks| == |ifNames|
    ensures Described(c, namespace, networks, ifNames, [])
  {
  }

  /**
    The networks annotation.  Written as comma-separated networks, each with the
    wanted interface behind a colon or without one, it gives one element per
    network, up to the first that does not exist or names no physical network:
    with the wanted interface, or with `eth` and the number of networks before
    it that left theirs open.
   */
  lemma NetworksMean(c: Cluster, namespace: string, networks: seq<string>, ifNames: seq<Option<string>>)
    requires Writable(networks, ifNames)
    ensures var text := Join(EntryTexts(networks, ifNames), ",");
            var (infos, ok) := EntryInfos(c, namespace, Split(text, ","));
            && |infos| <= |networks| && (ok <==> |infos| == |networks|)
            && (ok <==> forall i :: 0 <= i < |networks| ==> Resolvable(c, namespace, networks[i]))
            && (!ok ==> !Resolvable(c, namespace, networks[|infos|]))
            && Described(c, namespace, networks, ifNames, infos)
  {
    hide EntryInfos, Split, Join, Itoa, Described, Resolvable;
    var entries := EntryTexts(networks, ifNames);
    assert Words(entries, ',');
    assert [','] == ",";
    SplitJoin(entries, ',');
    EntriesMean(c, namespace, networks, ifNames, |networks|);
    assert entries[..|networks|] == entries;
  }

  // ---------- The plan ----------

  /** A pod without annotations gets the configured default plugin, or weave, on eth0. */
  lemma PlanWithoutAnnotations(cfg: Config, smart: Option<string>)
    ensures Delete(cfg, map[], smart) ==
            [Request("eth0", if cfg.defaultPlugin == "" then "weave" else cfg.defaultPlugin)]
  {
    assert Itoa(0) == "0" && "eth" + "0" == "eth0";
  }

  /** A pod that lists plugins gets the i-th one of its list on the i-th interface. */
  lemma PlanOfPlugins(cfg: Config, a: Annotations, smart: Option<string>, names: seq<string>)
    requires Words(names, ',') && "cni" in a && a["cni"] == Join(names, ",") && Trim(a["cni"]) != ""
    ensures var visited := Delete(cfg, a, smart);
            |visited| == |names| && forall i :: 0 <= i < |names| ==> visited[i] == Request("eth" + Itoa(i), names[i])
    ensures Plan(cfg, a, smart).1 && Plan(cfg, a, smart).2 == a
  {
    hide Split, Join, Trim, Itoa, EntryInfos;
    assert [','] == ",";
    SplitJoin(names, ',');
  }

  /** The request is for the interface, with the plugin that the network's objects give. */
  ghost predicate Asks(c: Cluster, namespace: string, network: string, ifName: string, r: Request) {
    exists info :: Describes(c, namespace, network, ifName, info) && r == Request(ifName, info.pluginName)
  }

  /** A pod that lists networks instead gets each network's plugin on its interface, or nothing if one is unknown. */
  lemma PlanOfNetworks(cfg: Config, a: Annotations, smart: Option<string>, networks: seq<string>,
                       ifNames: seq<Option<string>>)
    requires Writable(networks, ifNames) && (forall i :: 0 <= i < |ifNames| ==> ifNames[i] != Some(""))
    requires "networks" in a && Trim(a["networks"]) == Join(EntryTexts(networks, ifNames), ",") && a["networks"] != ""
    requires "cni" in a ==> Trim(a["cni"]) == ""
    ensures var visited := Delete(cfg, a, smart);
            if forall i :: 0 <= i < |networks| ==> Resolvable(cfg.cluster, cfg.namespace, networks[i]) then
              && |visited| == |networks|
              && forall i :: 0 <= i < |networks| ==>
                   Asks(cfg.cluster, cfg.namespace, networks[i], Interface(ifNames, i), visited[i])
            else visited == []
  {
    hide Split, Join, Trim, Itoa, EntryInfos, Describes, Resolvable, EntryTexts, Open;
    NetworksMean(cfg.cluster, cfg.namespace, networks, ifNames);
    NothingToTrim();
    var (infos, ok, _) := Plan(cfg, a, smart);
    assert "cni" !in a ==> Annot(a, "cni") == "";
    if ok {
      forall i | 0 <= i < |networks|
        ensures Asks(cfg.cluster, cfg.namespace, networks[i], Interface(ifNames, i), RequestOf(infos, i))
      {
        DescribesInterface(cfg.cluster, cfg.namespace, networks[i], Interface(ifNames, i), infos[i]);
      }
    }
  }

  lemma DescribesInterface(c: Cluster, namespace: string, network: string, ifName: string, info: PluginInfo)
    requires Describes(c, namespace, network, ifName, info)
    ensures info.ifName == ifName
  {
  }

  lemma NothingToTrim()
    ensures Trim("") == ""
  {
  }

  /** A pod with other annotations only gets the usage-based choice on eth0, and keeps it. */
  lemma PlanOfChoice(cfg: Config, a: Annotations, smart: Option<string>)
    requires a != map[] && ("cni" in a ==> Trim(a["cni"]) == "") && ("networks" in a ==> a["networks"] == "")
    ensures Delete(cfg, a, smart) == if smart.Some? then [Request("eth0", smart.value)] else []
    ensures Plan(cfg, a, smart).2 == if smart.Some? then a["cni" := smart.value] else a
    ensures Plan(cfg, a, smart).1 <==> smart.Some?
  {
    hide Trim, Split, EntryInfos;
    NothingToTrim();
    assert Itoa(0) == "0" && "eth" + "0" == "eth0";
    assert "cni" !in a ==> Annot(a, "cni") == "";
  }

  // ---------- The record ----------

  /** What a recorded address adds: one more in the count, and the entry of its interface. */
  lemma RecordMeans(j: Codec, k: nat, result: AddResult, text: string)
    requires RoundTrips(j) && text != "" && j.decode(text).ips.Some? && result.Addresses? && result.ips != []
    ensures var p, r := j.decode(text), Record(j, "eth" + Itoa(k), result, text, true);
            && r.Recorded? && r.text != ""
            && j.decode(r.text) == Preferences(p.multiEntry + 1,
                                               Some(p.ips.value["ip" + Itoa(k + 1) :=
                                                 IpPreference(result.ips[0], "eth" + Itoa(k))]))
  {
    hide Split, Itoa, Atoi, Numeral;
    InterfaceNumber(k);
  }

  /** A record can be kept iff there are addresses, the map is there and the interface's name contains `eth`. */
  lemma RecordIff(j: Codec, ifName: string, result: AddResult, text: string, patched: bool)
    requires text != ""
    ensures Record(j, ifName, result, text, patched).Recorded? <==>
            result.Addresses? && result.ips != [] && j.decode(text).ips.Some? && Contains(ifName, "eth") && patched
    ensures Record(j, ifName, result, text, patched).Panics? <==>
            result.NoResult? ||
            (result.Addresses? && (result.ips == [] || j.decode(text).ips.None? || !Contains(ifName, "eth")))
  {
    hide Atoi, Numeral;
    if Contains(ifName, "eth") {
      SplitContained(ifName, "eth");
    } else {
      SplitWithoutSeparator(ifName, "eth");
    }
  }

  lemma SplitContained(s: string, sep: string)
    requires sep != "" && Contains(s, sep)
    ensures |Split(s, sep)| >= 2
  {
  }

  /** The i-th plugin call gives addresses, its interface is an `eth` one, and its record is patched in. */
  ghost predicate Succeeds(w: World, infos: seq<PluginInfo>, i: nat)
    requires i < |infos|
  {
    && w.results(i).Addresses? && w.results(i).ips != [] && w.patched(i)
    && Contains(RequestOf(infos, i).ifName, "eth")
  }

  lemma {:induction false} RecordedAll(j: Codec, w: World, p: Progress, infos: seq<PluginInfo>, n: nat)
    requires RoundTrips(j) && n <= |infos| && p.alive && !p.failed && p.text != "" && j.decode(p.text).ips.Some?
    ensures var q := AddFirst(j, w, p, infos, n);
            && (q.alive && !q.failed <==> forall i :: 0 <= i < n ==> Succeeds(w, infos, i))
            && (q.alive ==> q.text != "" && j.decode(q.text).ips.Some?)
  {
    hide Record, Succeeds, RequestOf, Contains;
    if n > 0 {
      RecordedAll(j, w, p, infos, n - 1);
      var q := AddFirst(j, w, p, infos, n - 1);
      if q.alive { OneSucceeds(j, w, q, infos, n - 1); }
    }
  }

  lemma OneSucceeds(j: Codec, w: World, q: Progress, infos: seq<PluginInfo>, i: nat)
    requires RoundTrips(j) && i < |infos| && q.alive && q.text != "" && j.decode(q.text).ips.Some?
    ensures var r := AddOne(j, w, q, infos, i);
            && (r.alive && !r.failed <==> !q.failed && Succeeds(w, infos, i))
            && (r.alive ==> r.text != "" && j.decode(r.text).ips.Some?)
  {
    hide Contains, Split, Numeral, Atoi, RequestOf;
    RecordIff(j, RequestOf(infos, i).ifName, w.results(i), q.text, w.patched(i));
  }

  lemma {:induction false} UnrecordedAll(j: Codec, w: World, p: Progress, infos: seq<PluginInfo>, n: nat)
    requires n <= |infos| && p.alive && !p.failed && p.text == ""
    ensures var q := AddFirst(j, w, p, infos, n);
            q.alive && q.text == "" && (!q.failed <==> forall i :: 0 <= i < n ==> !w.results(i).NoResult?)
  {
    hide RequestOf;
    if n > 0 { UnrecordedAll(j, w, p, infos, n - 1); }
  }

  /**
    ADD succeeds iff the annotations could be parsed and: without a record to
    keep, every plugin gave a result; with one, every plugin gave an address for
    an `eth` interface and every record was patched in.
   */
  lemma AddSucceedsIff(cfg: Config, j: Codec, w: World, a: Annotations, smart: Option<string>)
    requires RoundTrips(j)
    requires "multi-ip-preferences" in a && a["multi-ip-preferences"] != "" ==>
             j.decode(a["multi-ip-preferences"]).ips.Some?
    ensures var (infos, ok, _) := Plan(cfg, a, smart);
            var q, text := Add(cfg, j, w, a, smart), Annot(a, "multi-ip-preferences");
            q.alive && !q.failed <==>
            && ok
            && (text == "" ==> forall i :: 0 <= i < |infos| ==> !w.results(i).NoResult?)
            && (text != "" ==> forall i :: 0 <= i < |infos| ==> Succeeds(w, infos, i))
  {
    hide EntryInfos, Split, Trim, Record, Itoa, Succeeds, RoundTrips;
    var (infos, ok, a1) := Plan(cfg, a, smart);
    KeysDiffer();
    var text := Annot(a1, MULTI_IP);
    assert text == Annot(a, MULTI_IP);
    if ok {
      var p := Progress(text, a1, [], true, false);
      if text == "" {
        UnrecordedAll(j, w, p, infos, |infos|);
      } else {
        RecordedAll(j, w, p, infos, |infos|);
      }
    }
  }
}
