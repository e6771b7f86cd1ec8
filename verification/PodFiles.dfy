/**
  The plan of a pod and the configuration files joined: which file the ADD and
  the DEL of each planned interface hand to its plugin.
 */
module PodFiles {
  import opened Options
  import P = PodNetwork
  import F = ConfFiles

  function Plugins(requests: seq<P.Request>): (names: seq<string>)
    ensures |names| == |requests| && forall i :: 0 <= i < |names| ==> names[i] == requests[i].pluginName
  {
    seq(|requests|, i requires 0 <= i < |requests| => requests[i].pluginName)
  }

  /** The ADDs of the requested interfaces, on a node with that directory. */
  function JobOf(d: F.Decoder, binaries: seq<string>, dir: F.Dir, requests: seq<P.Request>,
                 writable: nat -> bool): F.Job
  {
    F.Job(d, binaries, dir, Plugins(requests), writable)
  }

  /**
    The i-th request of a pod's ADD.  DEL makes the same request, for the same
    interface and the same plugin.  If ADD served it with `path`, DEL hands the
    same file to the plugin iff that is no conflist and no default file written
    for a later request contains the plugin's name and sorts before it; if ADD
    was refused, DEL finds no file iff no such default file was written.
   */
  lemma DelServesWhatAddServed(cfg: P.Config, j: P.Codec, w: P.World, a: P.Annotations, atAdd: Option<string>,
                               atDel: Option<string>, d: F.Decoder, binaries: seq<string>, dir: F.Dir,
                               writable: nat -> bool, i: nat, path: string, ok: bool)
    requires (atAdd.Some? ==> atAdd.value in P.SMART_NAMES) && F.DefaultsTyped(d)
    requires i < |P.Add(cfg, j, w, a, atAdd).requested|
    requires F.OutcomeAt(JobOf(d, binaries, dir, P.Add(cfg, j, w, a, atAdd).requested, writable), i, path, ok)
    ensures var p := P.Add(cfg, j, w, a, atAdd);
            var visited := P.Delete(cfg, p.annotations, atDel);
            var x := JobOf(d, binaries, dir, p.requested, writable);
            && i < |visited| && visited[i] == p.requested[i]
            && var name, final := visited[i].pluginName, F.DirAt(x, |x.names|);
            && (ok ==> (F.IsFirst(d, final, name, false, path) <==>
                        F.Ext(path) != ".conflist" && F.LaterSortsAfter(x, i + 1, name, path)))
            && (!ok ==> (F.NoneServes(d, final, name, false) <==> F.LaterNone(x, i + 1, name)))
  {
    hide P.Add, P.Delete, P.Plan, F.OutcomeAt, F.IsFirst, F.Ext, F.LaterSortsAfter, F.LaterNone, F.NoneServes;
    hide F.DefaultsTyped, F.NoCandidate, F.FirstCandidate;
    P.DelMirrorsAdd(cfg, j, w, a, atAdd, atDel);
    var p := P.Add(cfg, j, w, a, atAdd);
    var visited := P.Delete(cfg, p.annotations, atDel);
    assert p.requested == visited[..|p.requested|];
    assert visited[i] == visited[..|p.requested|][i];
    F.DeleteSelectsWhatAddUsed(JobOf(d, binaries, dir, p.requested, writable), i, path, ok);
  }
}
