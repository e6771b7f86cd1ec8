/**
  The pod ADD and DEL commands, which read and patch the pod's annotations and
  call one plugin after the other.
 */
module PodController {
  import opened Options
  import opened Sequences
  import opened Text
  import opened PodNetwork
  import U = NetworkUsage

  /**
    The usage-based choice: nothing if cAdvisor cannot be read, else one of the
    three known solutions; the process dies on an interface name that is
    shorter than four characters.
   */
  method SmartChoice(snapshots: Option<seq<U.Snapshot>>, order: set<string> -> seq<string>)
    returns (alive: bool, cns: Option<string>)
    requires forall s: set<string> :: Enumerates(order(s), s)
    ensures alive <==> (snapshots.Some? ==> U.AllSliceable(snapshots.value))
    ensures alive ==> (cns.Some? <==> snapshots.Some?)
    ensures cns.Some? ==>
              && snapshots.Some? && U.AllSliceable(snapshots.value)
              && cns.value in SMART_NAMES && cns.value in {"weave", "flannel", "calico"}
              && U.LeastRecorded(snapshots.value, cns.value[..4])
              && (|snapshots.value| >= 2 && U.SameInterfaces(snapshots.value) ==>
                    U.LeastUsed(snapshots.value, cns.value[..4]))
  {
    if snapshots.None? {
      return true, None;
    }
    var name := U.ComputeNetworkUsage(snapshots.value, order);
    return name.Some?, name;
  }

  class Genie {
    const cfg: Config
    const codec: Codec
    /** What the plugins and the API server answer. */
    const world: World
    var annotations: Annotations
    /** The plugin calls made. */
    var calls: seq<Request>

    constructor (cfg: Config, codec: Codec, world: World, annotations: Annotations)
      ensures this.cfg == cfg && this.codec == codec && this.world == world && this.annotations == annotations &&
              calls == []
    {
      this.cfg := cfg;
      this.codec := codec;
      this.world := world;
      this.annotations := annotations;
      this.calls := [];
    }

    method ParseCniAnnotations(smart: Option<string>) returns (infos: seq<PluginInfo>, ok: bool)
      modifies `annotations
      ensures (infos, ok, annotations) == Plan(cfg, old(annotations), smart)
    {
      hide Trim, Split, EntryInfos;
      if annotations == map[] {
        return [Plain(DefaultPlugin(cfg.defaultPlugin))], true;
      }
      if Trim(Annot(annotations, CNI)) != "" {
        var names := Split(Annot(annotations, CNI), ",");
        infos := [];
        for i := 0 to |names|
          invariant infos == PlainAll(names[..i])
        {
          infos := infos + [Plain(names[i])];
        }
        assert names[..|names|] == names;
        return infos, true;
      }
      if Annot(annotations, NETWORKS) != "" {
        infos, ok := PluginInfoFromNetworks(cfg.cluster, Trim(Annot(annotations, NETWORKS)), cfg.namespace);
        return;
      }
      if smart.None? {
        return [], false;
      }
      annotations := annotations[CNI := smart.value];
      return [Plain(smart.value)], true;
    }

    method UpdatePodDefinition(ifName: string, result: AddResult, text: string, patched: bool) returns (r: Recorded)
      modifies `annotations
      ensures r == Record(codec, ifName, result, text, patched)
      ensures annotations == if r.Recorded? then old(annotations)[MULTI_IP := r.text] else old(annotations)
    {
      hide Split, Atoi, Numeral;
      if text == "" {
        return NotRecorded;
      }
      if result.NoResult? {
        return Panics;
      }
      if result.Unconvertible? {
        return NotRecorded;
      }
      var p := codec.decode(text);
      var parts := Split(ifName, "eth");
      if |parts| < 2 || p.ips.None? || result.ips == [] {
        return Panics;
      }
      var id := Atoi(parts[1]);
      var ips := p.ips.value["ip" + Numeral(id + 1) := IpPreference(result.ips[0], ifName)];
      if !patched {
        return NotRecorded;
      }
      var updated := codec.encode(Preferences(p.multiEntry + 1, Some(ips)));
      annotations := annotations[MULTI_IP := updated];
      return Recorded(updated);
    }

    /** `alive` is false if the process died in the middle; `ok` says whether ADD reports success. */
    method AddPodNetwork(smart: Option<string>) returns (alive: bool, ok: bool)
      modifies `annotations, `calls
      ensures var p := Add(cfg, codec, world, old(annotations), smart);
              annotations == p.annotations && calls == old(calls) + p.requested && alive == p.alive
      ensures alive ==> ok == !Add(cfg, codec, world, old(annotations), smart).failed
    {
      hide Plan, Record, RequestOf;
      var infos, parsed := ParseCniAnnotations(smart);
      if !parsed {
        return true, false;
      }
      var text := Annot(annotations, MULTI_IP);
      ghost var start := Progress(text, annotations, [], true, false);
      ok := true;
      for i := 0 to |infos|
        invariant var p := AddFirst(codec, world, start, infos, i);
                  text == p.text && annotations == p.annotations && calls == old(calls) + p.requested && p.alive &&
                    ok == !p.failed
      {
        ghost var p := AddFirst(codec, world, start, infos, i);
        var call := RequestOf(infos, i);
        calls := calls + [call];
        assert calls == old(calls) + (p.requested + [call]);
        var result := world.results(i);
        if result.NoResult? {
          ok := false;
        }
        var r := UpdatePodDefinition(call.ifName, result, text, world.patched(i));
        match r {
          case Panics =>
            DeadStaysDead(codec, world, start, infos, i + 1, |infos|);
            return false, false;
          case NotRecorded =>
            if text != "" {
              ok := false;
            }
          case Recorded(updated) =>
            text := updated;
        }
      }
      return true, ok;
    }

    /** A plugin that fails to delete does not stop the others, but makes DEL report an error. */
    method DeletePodNetwork(smart: Option<string>) returns (ok: bool)
      modifies `annotations, `calls
      ensures calls == old(calls) + Delete(cfg, old(annotations), smart)
      ensures var (infos, parsed, _) := Plan(cfg, old(annotations), smart);
              ok <==> parsed && forall i :: 0 <= i < |infos| ==> world.deleted(i)
    {
      hide Plan, RequestOf;
      var infos: seq<PluginInfo>;
      infos, ok := ParseCniAnnotations(smart);
      if !ok {
        return;
      }
      for i := 0 to |infos|
        invariant calls == old(calls) + Requests(infos)[..i]
        invariant ok <==> forall k :: 0 <= k < i ==> world.deleted(k)
      {
        if !world.deleted(i) {
          ok := false;
        }
        calls := calls + [RequestOf(infos, i)];
        assert Requests(infos)[..i + 1] == Requests(infos)[..i] + [RequestOf(infos, i)];
      }
    }
  }

  lemma {:induction false} DeadStaysDead(j: Codec, w: World, p: Progress, infos: seq<PluginInfo>, i: nat, n: nat)
    requires i <= n <= |infos| && !AddFirst(j, w, p, infos, i).alive
    ensures AddFirst(j, w, p, infos, n) == AddFirst(j, w, p, infos, i)
    decreases n
  {
    hide Record, RequestOf;
    if i < n { DeadStaysDead(j, w, p, infos, i, n - 1); }
  }
}
