/**
  Which CNI configuration file serves a plugin: the one `addNetwork` uses,
  writing a default one if need be, and the one `deleteNetwork` selects.
 */
module ConfFiles {
  import opened Options
  import opened Sequences
  import opened Text

  // ---------- File names ----------

  const NET_DIR := "/etc/cni/net.d"

  /** filepath.Ext: from the last dot of the last path element. */
  function Ext(path: string): string {
    if path == "" || Last(path) == '/' then ""
    else if Last(path) == '.' then "."
    else
      var e := Ext(Init(path));
      if e == "" then "" else e + [Last(path)]
  }

  predicate HasSuffix(s: string, suffix: string) {
    |suffix| <= |s| && s[|s| - |suffix|..] == suffix
  }

  lemma {:induction false} ExtIsSuffix(path: string)
    ensures HasSuffix(path, Ext(path))
  {
    if path != "" && Last(path) != '/' && Last(path) != '.' {
      ExtIsSuffix(Init(path));
    }
  }

  lemma SuffixSharesLast(s: string, suffix: string)
    requires suffix != ""
    ensures HasSuffix(s, suffix) ==> s != "" && Last(s) == Last(suffix)
  {
    if HasSuffix(s, suffix) { assert s[|s| - |suffix|..][|suffix| - 1] == Last(s); }
  }

  lemma ConfIsNoList(path: string)
    requires Ext(path) == ".conf"
    ensures !HasSuffix(path, ".conflist")
  {
    ExtIsSuffix(path);
    SuffixSharesLast(path, ".conf");
    SuffixSharesLast(path, ".conflist");
  }

  /** Byte order on names, as sort.Strings uses it. */
  predicate Leq(a: string, b: string) {
    a == "" || (b != "" && (a[0] < b[0] || (a[0] == b[0] && Leq(a[1..], b[1..]))))
  }

  lemma {:induction false} LeqTotal(a: string, b: string)
    ensures Leq(a, b) || Leq(b, a)
    ensures Leq(a, b) && Leq(b, a) ==> a == b
  {
    if a != "" && b != "" {
      LeqTotal(a[1..], b[1..]);
      assert a == [a[0]] + a[1..] && b == [b[0]] + b[1..];
    }
  }

  lemma {:induction false} LeqTransitive(a: string, b: string, c: string)
    requires Leq(a, b) && Leq(b, c)
    ensures Leq(a, c)
  {
    if a != "" && a[0] == b[0] == c[0] { LeqTransitive(a[1..], b[1..], c[1..]); }
  }

  // ---------- The directory ----------

  type Dir = map<string, string>

  /** What a configuration text decodes to: a plugin type for a conf, acceptance for a conflist. */
  datatype Decoder = Decoder(confType: string -> Option<string>, listOk: string -> bool, defaults: string -> string)

  /** ParseCNIConfFromFile succeeds. */
  predicate Parses(d: Decoder, path: string, content: string) {
    if HasSuffix(path, ".conflist") then d.listOk(content)
    else d.confType(content).Some? && d.confType(content).value != ""
  }

  predicate Serves(d: Decoder, dir: Dir, cniName: string, path: string)
    requires path in dir
  {
    cniName != "" && Contains(path, cniName) && Parses(d, path, dir[path])
  }

  predicate Listed(path: string, lists: bool) {
    Ext(path) == ".conf" || (lists && Ext(path) == ".conflist")
  }

  /** The first file in order that serves the plugin. */
  ghost predicate IsFirst(d: Decoder, dir: Dir, cniName: string, lists: bool, path: string) {
    && path in dir && Listed(path, lists) && Serves(d, dir, cniName, path)
    && forall g :: g in dir && Listed(g, lists) && Serves(d, dir, cniName, g) ==> Leq(path, g)
  }

  ghost predicate NoneServes(d: Decoder, dir: Dir, cniName: string, lists: bool) {
    forall g :: g in dir && Listed(g, lists) ==> !Serves(d, dir, cniName, g)
  }

  ghost predicate Sorted(files: seq<string>) {
    forall i, j :: 0 <= i < j < |files| ==> Leq(files[i], files[j])
  }

  function InsertSorted(files: seq<string>, f: string): (r: seq<string>)
    ensures forall g :: g in r <==> g in files || g == f
  {
    if files == [] || Leq(f, files[0]) then
      assert forall g :: g in [f] + files <==> g in files || g == f;
      [f] + files
    else
      assert files == [files[0]] + files[1..];
      [files[0]] + InsertSorted(files[1..], f)
  }

  lemma {:induction false} InsertSortedIsSorted(files: seq<string>, f: string)
    requires Sorted(files)
    ensures Sorted(InsertSorted(files, f))
  {
    hide Leq;
    if files == [] {
    } else if Leq(f, files[0]) {
      forall i | 0 <= i < |files| ensures Leq(f, files[i]) {
        if i > 0 { LeqTransitive(f, files[0], files[i]); }
      }
    } else {
      LeqTotal(f, files[0]);
      InsertSortedIsSorted(files[1..], f);
      var r := InsertSorted(files[1..], f);
      forall i | 0 <= i < |r| ensures Leq(files[0], r[i]) {
        if r[i] != f {
          assert r[i] in files[1..];
          var k :| 0 <= k < |files[1..]| && files[1..][k] == r[i];
          assert Leq(files[0], files[k + 1]);
        }
      }
    }
  }

  const DEFAULTS: set<string> := {"bridge", "macvlan", "sriov"}

  function DefaultPath(cniName: string): string {
    NET_DIR + "/" + "10-" + cniName + ".conf"
  }

  class NetDir {
    const decoder: Decoder
    const binaries: seq<string>
    var dir: Dir

    constructor (decoder: Decoder, binaries: seq<string>, dir: Dir)
      ensures this.decoder == decoder && this.binaries == binaries && this.dir == dir
    {
      this.decoder := decoder;
      this.binaries := binaries;
      this.dir := dir;
    }

    /** libcni.ConfFiles followed by sort.Strings. */
    method ConfFilesSorted(lists: bool) returns (files: seq<string>)
      ensures Sorted(files)
      ensures forall f :: f in files <==> f in dir && Listed(f, lists)
    {
      files := [];
      var rest := dir.Keys;
      while rest != {}
        invariant rest <= dir.Keys && Sorted(files)
        invariant forall f :: f in files <==> f in dir && f !in rest && Listed(f, lists)
        decreases |rest|
      {
        var f :| f in rest;
        if Listed(f, lists) {
          InsertSortedIsSorted(files, f);
          files := InsertSorted(files, f);
        }
        rest := rest - {f};
      }
    }

    /** The loop that both operations share: the first listed file that matches and parses. */
    method FirstServing(files: seq<string>, cniName: string, ghost lists: bool) returns (path: string, found: bool)
      requires Sorted(files) && forall f :: f in files <==> f in dir && Listed(f, lists)
      ensures found ==> IsFirst(decoder, dir, cniName, lists, path)
      ensures !found ==> NoneServes(decoder, dir, cniName, lists)
    {
      for i := 0 to |files|
        invariant forall k :: 0 <= k < i ==> files[k] in dir && !Serves(decoder, dir, cniName, files[k])
      {
        assert files[i] in files;
        if Contains(files[i], cniName) && cniName != "" && Parses(decoder, files[i], dir[files[i]]) {
          FirstOfSorted(decoder, dir, cniName, lists, files, i);
          return files[i], true;
        }
      }
      return "", false;
    }

    method CheckPluginBinary(cniName: string) returns (ok: bool)
      ensures ok <==> AnyContains(binaries, cniName)
    {
      for i := 0 to |binaries|
        invariant forall k :: 0 <= k < i ==> !Contains(binaries[k], cniName)
      {
        if Contains(binaries[i], cniName) {
          return true;
        }
      }
      return false;
    }

    /**
      The configuration file that an ADD hands to the plugin; a default one is
      written if no file serves.  `writable` says whether that write succeeds.
     */
    method AddNetwork(cniName: string, writable: bool) returns (path: string, ok: bool)
      modifies this
      ensures dir == NextDir(decoder, binaries, old(dir), cniName, writable)
      ensures AddOutcome(decoder, binaries, old(dir), cniName, writable, path, ok)
    {
      var files := ConfFilesSorted(true);
      var found: bool;
      path, found := FirstServing(files, cniName, true);
      if found {
        return path, true;
      }
      var supported := CheckPluginBinary(cniName);
      if !supported || cniName !in DEFAULTS {
        return "", false;
      }
      if !writable {
        return "", false;
      }
      path := DefaultPath(cniName);
      dir := dir[path := decoder.defaults(cniName)];
      return path, decoder.confType(decoder.defaults(cniName)).Some?;
    }

    /** The ADDs of a pod's plugins, one after the other. */
    method AddEach(names: seq<string>, writable: nat -> bool)
      returns (paths: seq<string>, oks: seq<bool>)
      modifies this
      ensures var x := Job(decoder, binaries, old(dir), names, writable);
              && |paths| == |oks| == |names| && dir == DirAt(x, |names|)
              && forall i :: 0 <= i < |names| ==> OutcomeAt(x, i, paths[i], oks[i])
    {
      hide AddOutcome, NextDir, DirAt;
      ghost var x := Job(decoder, binaries, dir, names, writable);
      DirAtNext(x, 0);
      paths, oks := [], [];
      for i := 0 to |names|
        invariant |paths| == |oks| == i && dir == DirAt(x, i)
        invariant forall k :: 0 <= k < i ==> OutcomeAt(x, k, paths[k], oks[k])
      {
        DirAtNext(x, i);
        var path, ok := AddNetwork(names[i], writable(i));
        paths, oks := paths + [path], oks + [ok];
      }
    }

    /**
      The configuration file that a DEL selects.  Without conf files it is an
      error, without a matching one it is not.
     */
    method DeleteNetwork(cniName: string) returns (r: Deletion)
      ensures r.NoFiles? <==> forall f :: f in dir ==> !Listed(f, false)
      ensures r.Selected? ==> IsFirst(decoder, dir, cniName, false, r.path)
      ensures !r.Selected? ==> NoneServes(decoder, dir, cniName, false)
    {
      var files := ConfFilesSorted(false);
      if files == [] {
        assert forall f :: f in dir ==> !Listed(f, false) by {
          assert forall f :: f in dir && Listed(f, false) ==> f in files;
        }
        return NoFiles;
      }
      assert files[0] in files;
      var path, found := FirstServing(files, cniName, false);
      if !found {
        return NoMatch;
      }
      return Selected(path);
    }
  }

  datatype Deletion = Selected(path: string) | NoMatch | NoFiles

  lemma FirstOfSorted(d: Decoder, dir: Dir, cniName: string, lists: bool, files: seq<string>, i: nat)
    requires i < |files| && Sorted(files) && forall f :: f in files <==> f in dir && Listed(f, lists)
    requires forall k :: 0 <= k < i ==> files[k] in dir && !Serves(d, dir, cniName, files[k])
    requires files[i] in dir && Serves(d, dir, cniName, files[i])
    ensures IsFirst(d, dir, cniName, lists, files[i])
  {
    hide Leq, Contains, Parses, Listed;
    assert files[i] in files;
    LeqTotal(files[i], files[i]);
    forall g | g in dir && Listed(g, lists) && Serves(d, dir, cniName, g) ensures Leq(files[i], g) {
      assert g in files;
      var k :| 0 <= k < |files| && files[k] == g;
    }
  }

  // ---------- One ADD ----------

  /** An ADD writes a default file if nothing serves, the plugin's binary is there and it has a default. */
  ghost predicate Writes(d: Decoder, binaries: seq<string>, dir: Dir, cniName: string, writable: bool) {
    NoneServes(d, dir, cniName, true) && AnyContains(binaries, cniName) && cniName in DEFAULTS && writable
  }

  ghost function NextDir(d: Decoder, binaries: seq<string>, dir: Dir, cniName: string, writable: bool): Dir {
    if Writes(d, binaries, dir, cniName, writable) then dir[DefaultPath(cniName) := d.defaults(cniName)] else dir
  }

  /** What an ADD uses: the first file that serves, or the default one it writes; otherwise it is refused. */
  ghost predicate AddOutcome(d: Decoder, binaries: seq<string>, dir: Dir, cniName: string, writable: bool,
                             path: string, ok: bool)
  {
    if !NoneServes(d, dir, cniName, true) then ok && IsFirst(d, dir, cniName, true, path)
    else if Writes(d, binaries, dir, cniName, writable) then
      path == DefaultPath(cniName) && (ok <==> d.confType(d.defaults(cniName)).Some?)
    else !ok
  }

  /** A text ends with an extension iff that is its `Ext`, for extensions without a further dot or slash. */
  lemma {:induction false} ExtMeans(path: string, ext: string)
    requires ext != "" && ext[0] == '.' && forall i :: 1 <= i < |ext| ==> ext[i] != '.' && ext[i] != '/'
    ensures Ext(path) == ext <==> HasSuffix(path, ext)
  {
    ExtIsSuffix(path);
    if HasSuffix(path, ext) {
      var stem := path[..|path| - |ext|];
      assert path == stem + ext;
      ExtOf(stem, ext);
    }
  }

  lemma {:induction false} ExtOf(stem: string, ext: string)
    requires ext != "" && ext[0] == '.' && forall i :: 1 <= i < |ext| ==> ext[i] != '.' && ext[i] != '/'
    ensures Ext(stem + ext) == ext
    decreases |ext|
  {
    var path := stem + ext;
    if |ext| == 1 {
      assert ext == ".";
    } else {
      assert Init(path) == stem + Init(ext);
      ExtOf(stem, Init(ext));
      assert ext == Init(ext) + [Last(ext)];
    }
  }

  /** Which files the two operations look at: ADD at `.conf` and `.conflist`, DEL at `.conf` only. */
  lemma ListedMeans(path: string)
    ensures Listed(path, true) <==> HasSuffix(path, ".conf") || HasSuffix(path, ".conflist")
    ensures Listed(path, false) <==> HasSuffix(path, ".conf")
  {
    hide Ext, HasSuffix;
    ExtMeans(path, ".conf");
    ExtMeans(path, ".conflist");
  }

  /**
    Which files serve a plugin: the name is in the path, and a `.conf` decodes to
    a type that is not empty, while a `.conflist`, which only ADD looks at, loads.
   */
  lemma ServingMeans(d: Decoder, dir: Dir, cniName: string, lists: bool, path: string)
    requires path in dir
    ensures Listed(path, lists) && Serves(d, dir, cniName, path) <==>
            && cniName != "" && Contains(path, cniName)
            && ((HasSuffix(path, ".conf") && d.confType(dir[path]) !in {None, Some("")})
                || (lists && HasSuffix(path, ".conflist") && d.listOk(dir[path])))
  {
    hide Ext, HasSuffix, Contains;
    ExtMeans(path, ".conf");
    ExtMeans(path, ".conflist");
    if Ext(path) == ".conf" { ConfIsNoList(path); }
    assert ".conf" != ".conflist";
  }

  /**
    The ADD of a plugin that no file serves.  For bridge, macvlan and sriov, if
    a binary's name contains the plugin's and the file can be written, the
    plugin's default goes to its own file, and ADD uses that if it decodes.
    Any other plugin is refused, and the directory stays.
   */
  lemma UnservedAdd(d: Decoder, binaries: seq<string>, dir: Dir, cniName: string, writable: bool, path: string,
                    ok: bool)
    requires NoneServes(d, dir, cniName, true) && AddOutcome(d, binaries, dir, cniName, writable, path, ok)
    ensures var after := NextDir(d, binaries, dir, cniName, writable);
            if (cniName == "bridge" || cniName == "macvlan" || cniName == "sriov") &&
              AnyContains(binaries, cniName) && writable
            then
              && path == "/etc/cni/net.d/10-" + cniName + ".conf"
              && path in after && after[path] == d.defaults(cniName) && after.Keys == dir.Keys + {path}
              && (forall g :: g in dir && g != path ==> after[g] == dir[g])
              && (ok <==> d.confType(d.defaults(cniName)).Some?)
            else !ok && after == dir
  {
    hide NoneServes, AnyContains;
    assert NET_DIR + "/" + "10-" == "/etc/cni/net.d/10-";
    assert DefaultPath(cniName) == "/etc/cni/net.d/10-" + cniName + ".conf";
  }

  /** The default configurations name their own type. */
  ghost predicate DefaultsTyped(d: Decoder) {
    forall n :: n in DEFAULTS ==> d.confType(d.defaults(n)) == Some(n)
  }

  /** An ADD succeeds iff a file serves afterwards, and uses the first one. */
  lemma AddUsesFirst(d: Decoder, binaries: seq<string>, dir: Dir, cniName: string, writable: bool, path: string,
                     ok: bool)
    requires DefaultsTyped(d) && AddOutcome(d, binaries, dir, cniName, writable, path, ok)
    ensures var after := NextDir(d, binaries, dir, cniName, writable);
            if ok then IsFirst(d, after, cniName, true, path) else NoneServes(d, after, cniName, true)
  {
    hide Leq, Contains, Parses, Ext;
    if Writes(d, binaries, dir, cniName, writable) {
      var after := NextDir(d, binaries, dir, cniName, writable);
      DefaultServes(d, cniName);
      forall g | g in after && Listed(g, true) && g != path ensures !Serves(d, after, cniName, g) {
        assert g in dir && !Serves(d, dir, cniName, g);
      }
      LeqTotal(path, path);
    }
  }

  // ---------- All ADDs of a pod ----------

  /** The plugins of a pod, the directory before its first ADD, and which writes of default files would succeed. */
  datatype Job = Job(decoder: Decoder, binaries: seq<string>, dir: Dir, names: seq<string>, writable: nat -> bool)

  /** The directory after the first `k` ADDs. */
  ghost function DirAt(x: Job, k: nat): Dir
    requires k <= |x.names|
  {
    if k == 0 then x.dir else NextDir(x.decoder, x.binaries, DirAt(x, k - 1), x.names[k - 1], x.writable(k - 1))
  }

  lemma DirAtNext(x: Job, k: nat)
    ensures DirAt(x, 0) == x.dir
    ensures k < |x.names| ==> DirAt(x, k + 1) == NextDir(x.decoder, x.binaries, DirAt(x, k), x.names[k], x.writable(k))
  {
    hide NextDir;
  }

  /** What the i-th ADD uses. */
  ghost predicate OutcomeAt(x: Job, i: nat, path: string, ok: bool)
    requires i < |x.names|
  {
    AddOutcome(x.decoder, x.binaries, DirAt(x, i), x.names[i], x.writable(i), path, ok)
  }

  /** One of the first `k` ADDs wrote the default file of `n`: told from the directory before and the list alone. */
  ghost predicate Wrote(x: Job, k: nat, n: string)
    requires k <= |x.names|
  {
    && n in DEFAULTS && AnyContains(x.binaries, n) && NoneServes(x.decoder, x.dir, n, true)
    && exists j :: 0 <= j < k && x.names[j] == n && x.writable(j)
  }

  /** A file that serves `name` after the first `k` ADDs: one that did before, or a default one that was written. */
  ghost predicate Candidate(x: Job, k: nat, name: string, lists: bool, g: string)
    requires k <= |x.names|
  {
    && Listed(g, lists) && name != "" && Contains(g, name)
    && ((g in x.dir && Parses(x.decoder, g, x.dir[g])) || exists n :: Wrote(x, k, n) && g == DefaultPath(n))
  }

  ghost predicate FirstCandidate(x: Job, k: nat, name: string, lists: bool, path: string)
    requires k <= |x.names|
  {
    Candidate(x, k, name, lists, path) && forall g :: Candidate(x, k, name, lists, g) ==> Leq(path, g)
  }

  ghost predicate NoCandidate(x: Job, k: nat, name: string, lists: bool)
    requires k <= |x.names|
  {
    forall g :: !Candidate(x, k, name, lists, g)
  }

  /** The default file of one plugin never serves another plugin that has a default. */
  lemma DefaultsAreApart(n: string, m: string)
    requires n in DEFAULTS && m in DEFAULTS && n != m
    ensures !Contains(DefaultPath(n), m)
  {
    hide DefaultPath;
    assert m[0] !in n by {
      if m == "bridge" {} else if m == "macvlan" {} else { assert m == "sriov"; }
    }
    assert m[0] in {'b', 'm', 's'};
    PathChars(n, m[0]);
    NoCharNoOccurrence(DefaultPath(n), m);
  }

  lemma PathChars(n: string, c: char)
    requires c in {'b', 'm', 's'} && c !in n
    ensures c !in DefaultPath(n)
  {
    assert c !in NET_DIR && c !in "/" && c !in "10-" && c !in ".conf";
  }

  /** The directory after `k` ADDs: the old files, with the written defaults put in. */
  ghost predicate DirIs(x: Job, k: nat, dir: Dir)
    requires k <= |x.names|
  {
    && (forall g :: g in dir <==> g in x.dir || exists n :: Wrote(x, k, n) && g == DefaultPath(n))
    && (forall n :: Wrote(x, k, n) ==> dir[DefaultPath(n)] == x.decoder.defaults(n))
    && forall g :: g in x.dir && (forall n :: Wrote(x, k, n) ==> g != DefaultPath(n)) ==> dir[g] == x.dir[g]
  }

  lemma CandidatesServe(x: Job, k: nat, dir: Dir, name: string, lists: bool, g: string)
    requires DefaultsTyped(x.decoder) && k <= |x.names| && DirIs(x, k, dir)
    ensures Candidate(x, k, name, lists, g) <==> g in dir && Listed(g, lists) && Serves(x.decoder, dir, name, g)
  {
    hide Contains, Parses, Ext, DefaultPath, Wrote, Leq;
    if n :| Wrote(x, k, n) && g == DefaultPath(n) {
      WroteIsDefault(x, k, n);
      DefaultServes(x.decoder, n);
    }
  }

  lemma WroteIsDefault(x: Job, k: nat, n: string)
    requires k <= |x.names| && Wrote(x, k, n)
    ensures n in DEFAULTS
  {
  }

  /** Whether anything serves a plugin that has a default, after `k` ADDs. */
  lemma DefaultServedAt(x: Job, k: nat, dir: Dir, name: string)
    requires DefaultsTyped(x.decoder) && k <= |x.names| && DirIs(x, k, dir) && name in DEFAULTS
    ensures NoneServes(x.decoder, dir, name, true) <==> NoneServes(x.decoder, x.dir, name, true) && !Wrote(x, k, name)
  {
    hide Contains, Parses, Ext, DefaultPath, Leq;
    if Wrote(x, k, name) {
      DefaultServes(x.decoder, name);
      assert Serves(x.decoder, dir, name, DefaultPath(name));
    } else if NoneServes(x.decoder, x.dir, name, true) {
      forall g | g in dir && Listed(g, true) ensures !Serves(x.decoder, dir, name, g) {
        CandidatesServe(x, k, dir, name, true, g);
        if n :| Wrote(x, k, n) && g == DefaultPath(n) { DefaultsAreApart(n, name); }
      }
    } else {
      var g :| g in x.dir && Listed(g, true) && Serves(x.decoder, x.dir, name, g);
      CandidatesServe(x, k, dir, name, true, g);
    }
  }

  lemma WroteStep(x: Job, k: nat, n: string)
    requires k < |x.names|
    ensures Wrote(x, k + 1, n) <==>
            (Wrote(x, k, n) ||
             (n == x.names[k] && x.writable(k) && n in DEFAULTS && AnyContains(x.binaries, n) &&
              NoneServes(x.decoder, x.dir, n, true)))
  {
    hide AnyContains, NoneServes;
  }

  lemma DirWritten(x: Job, k: nat, dir: Dir, name: string)
    requires k < |x.names| && DirIs(x, k, dir) && Wrote(x, k + 1, name)
    requires forall n :: Wrote(x, k + 1, n) <==> Wrote(x, k, n) || n == name
    ensures DirIs(x, k + 1, dir[DefaultPath(name) := x.decoder.defaults(name)])
  {
    hide DefaultPath, Wrote;
    forall n | Wrote(x, k, n) && n != name ensures DefaultPath(n) != DefaultPath(name) { PathsDiffer(n, name); }
  }

  lemma DirKept(x: Job, k: nat, dir: Dir)
    requires k < |x.names| && DirIs(x, k, dir) && forall n :: Wrote(x, k + 1, n) <==> Wrote(x, k, n)
    ensures DirIs(x, k + 1, dir)
  {
    hide DefaultPath, Wrote;
  }

  lemma DirStep(x: Job, k: nat, dir: Dir)
    requires DefaultsTyped(x.decoder) && k < |x.names| && DirIs(x, k, dir)
    ensures DirIs(x, k + 1, NextDir(x.decoder, x.binaries, dir, x.names[k], x.writable(k)))
  {
    hide DefaultPath, Wrote, NoneServes, AnyContains, DirIs, DefaultsTyped;
    var name := x.names[k];
    forall n ensures Wrote(x, k + 1, n) <==> (Wrote(x, k, n) || (n == name && Wrote(x, k + 1, name))) {
      WroteStep(x, k, n);
    }
    WroteStep(x, k, name);
    if name in DEFAULTS { DefaultServedAt(x, k, dir, name); }
    if Writes(x.decoder, x.binaries, dir, name, x.writable(k)) {
      DirWritten(x, k, dir, name);
    } else {
      if name !in DEFAULTS { WroteOnlyDefaults(x, k + 1, name); }
      DirKept(x, k, dir);
    }
  }

  lemma WroteOnlyDefaults(x: Job, k: nat, n: string)
    requires k <= |x.names| && n !in DEFAULTS
    ensures !Wrote(x, k, n)
  {
  }

  lemma PathsDiffer(n: string, name: string)
    requires n != name
    ensures DefaultPath(n) != DefaultPath(name)
  {
    var p, q := DefaultPath(n), DefaultPath(name);
    assert p[|NET_DIR| + 4..|p| - 5] == n && q[|NET_DIR| + 4..|q| - 5] == name;
  }

  lemma NothingWritten(x: Job)
    ensures DirIs(x, 0, x.dir)
  {
    hide DefaultPath, NoneServes, AnyContains;
  }

  lemma {:induction false} DirAtIs(x: Job, k: nat)
    requires DefaultsTyped(x.decoder) && k <= |x.names|
    ensures DirIs(x, k, DirAt(x, k))
  {
    hide NextDir, DirIs, DirAt;
    if k == 0 {
      DirAtNext(x, 0);
      NothingWritten(x);
    } else {
      DirAtNext(x, k - 1);
      DirAtIs(x, k - 1);
      DirStep(x, k - 1, DirAt(x, k - 1));
    }
  }

  /** After `k` ADDs the first file that serves a plugin is the first candidate. */
  lemma FirstAt(x: Job, k: nat, name: string, lists: bool, path: string)
    requires DefaultsTyped(x.decoder) && k <= |x.names|
    ensures IsFirst(x.decoder, DirAt(x, k), name, lists, path) <==> FirstCandidate(x, k, name, lists, path)
    ensures NoneServes(x.decoder, DirAt(x, k), name, lists) <==> NoCandidate(x, k, name, lists)
  {
    hide DirIs, DirAt, Candidate, Serves, Listed, Leq;
    DirAtIs(x, k);
    var dir := DirAt(x, k);
    forall g
      ensures Candidate(x, k, name, lists, g) <==> g in dir && Listed(g, lists) && Serves(x.decoder, dir, name, g)
    {
      CandidatesServe(x, k, dir, name, lists, g);
    }
  }

  // ---------- DEL against ADD ----------

  /** A default file written by an ADD after the first `k` serves `name`. */
  ghost predicate LaterDefault(x: Job, k: nat, name: string, g: string)
    requires k <= |x.names|
  {
    exists n :: g == DefaultPath(n) && Wrote(x, |x.names|, n) && !Wrote(x, k, n) && name != "" && Contains(g, name)
  }

  /** The candidates for DEL: ADD's without the conflists, and the default files written since. */
  lemma LaterCandidates(x: Job, k: nat, name: string, g: string)
    requires DefaultsTyped(x.decoder) && k <= |x.names|
    ensures Candidate(x, |x.names|, name, false, g) <==>
            (Candidate(x, k, name, true, g) && Ext(g) != ".conflist") || LaterDefault(x, k, name, g)
  {
    hide Contains, Parses, Ext, DefaultPath, Leq, NoneServes, AnyContains;
    var n := |x.names|;
    forall m | Wrote(x, k, m) ensures Wrote(x, n, m) {}
    forall m | Wrote(x, n, m) ensures Ext(DefaultPath(m)) == ".conf" { DefaultServes(x.decoder, m); }
    assert ".conf" != ".conflist";
  }

  ghost predicate LaterNone(x: Job, k: nat, name: string)
    requires k <= |x.names|
  {
    forall g :: !LaterDefault(x, k, name, g)
  }

  /** No default file written later and serving `name` sorts before `path`. */
  ghost predicate LaterSortsAfter(x: Job, k: nat, name: string, path: string)
    requires k <= |x.names|
  {
    forall g :: LaterDefault(x, k, name, g) ==> Leq(path, g)
  }

  /**
    DEL against ADD, for one plugin of a pod once all ADDs are done; the
    plugin's own ADD was among the first `k`.  Everything is told from the
    directory before the first ADD and the list of plugins.  If ADD used
    `path`, DEL selects the same file iff `path` is no conflist and no default
    file written since contains the plugin's name and sorts before `path`.  If
    ADD was refused, DEL selects nothing iff no default file written since
    contains the name.
   */
  lemma DelAgainstAdd(x: Job, k: nat, name: string, path: string)
    requires DefaultsTyped(x.decoder) && k <= |x.names|
    ensures FirstCandidate(x, k, name, true, path) ==>
              (FirstCandidate(x, |x.names|, name, false, path) <==>
               Ext(path) != ".conflist" && LaterSortsAfter(x, k, name, path))
    ensures NoCandidate(x, k, name, true) ==> (NoCandidate(x, |x.names|, name, false) <==> LaterNone(x, k, name))
  {
    hide Candidate, LaterDefault, Leq, Ext;
    var n := |x.names|;
    forall g
      ensures Candidate(x, n, name, false, g) <==>
              (Candidate(x, k, name, true, g) && Ext(g) != ".conflist") || LaterDefault(x, k, name, g)
    {
      LaterCandidates(x, k, name, g);
    }
    if Ext(path) == ".conflist" { LaterIsNoList(x, k, name, path); }
  }

  /**
    The same on the directory: the i-th plugin's ADD succeeds with `path`, or is
    refused, and DEL runs after the last ADD.
   */
  lemma DeleteSelectsWhatAddUsed(x: Job, i: nat, path: string, ok: bool)
    requires DefaultsTyped(x.decoder) && i < |x.names|
    requires OutcomeAt(x, i, path, ok)
    ensures ok <==> !NoCandidate(x, i + 1, x.names[i], true)
    ensures ok ==> FirstCandidate(x, i + 1, x.names[i], true, path)
    ensures ok ==> (IsFirst(x.decoder, DirAt(x, |x.names|), x.names[i], false, path) <==>
                    Ext(path) != ".conflist" && LaterSortsAfter(x, i + 1, x.names[i], path))
    ensures !ok ==> (NoneServes(x.decoder, DirAt(x, |x.names|), x.names[i], false) <==> LaterNone(x, i + 1, x.names[i]))
  {
    hide Candidate, LaterDefault, Leq, Ext, NoneServes, NextDir, IsFirst, LaterSortsAfter, LaterNone, AddOutcome;
    var name := x.names[i];
    DirAtNext(x, i);
    AddUsesFirst(x.decoder, x.binaries, DirAt(x, i), name, x.writable(i), path, ok);
    FirstAt(x, i + 1, name, true, path);
    FirstAt(x, |x.names|, name, false, path);
    DelAgainstAdd(x, i + 1, name, path);
  }

  lemma LaterIsNoList(x: Job, k: nat, name: string, g: string)
    requires DefaultsTyped(x.decoder) && k <= |x.names| && Ext(g) == ".conflist"
    ensures !LaterDefault(x, k, name, g)
  {
    hide Contains, Ext, DefaultPath, NoneServes, AnyContains;
    forall n | Wrote(x, |x.names|, n) ensures Ext(DefaultPath(n)) == ".conf" { DefaultServes(x.decoder, n); }
    assert ".conf" != ".conflist";
  }

  /**
    Where ADD used a conflist, DEL selects the first of the plain conf files
    that served then and the default files written since: another file, or none.
   */
  lemma ConflistIsReplaced(x: Job, k: nat, name: string, path: string, q: string)
    requires DefaultsTyped(x.decoder) && k <= |x.names|
    requires FirstCandidate(x, k, name, true, path) && Ext(path) == ".conflist"
    ensures FirstCandidate(x, |x.names|, name, false, q) <==>
            && q != path
            && (Candidate(x, k, name, false, q) || LaterDefault(x, k, name, q))
            && forall g :: Candidate(x, k, name, false, g) || LaterDefault(x, k, name, g) ==> Leq(q, g)
    ensures NoCandidate(x, |x.names|, name, false) <==> NoCandidate(x, k, name, false) && LaterNone(x, k, name)
  {
    hide Candidate, LaterDefault, Leq, Ext;
    var n := |x.names|;
    forall g
      ensures Candidate(x, n, name, false, g) <==> Candidate(x, k, name, false, g) || LaterDefault(x, k, name, g)
    {
      LaterCandidates(x, k, name, g);
      PlainCandidate(x, k, name, g);
    }
    PlainCandidate(x, k, name, path);
    LaterIsNoList(x, k, name, path);
  }

  lemma PlainCandidate(x: Job, k: nat, name: string, g: string)
    requires k <= |x.names|
    ensures Candidate(x, k, name, false, g) <==> Candidate(x, k, name, true, g) && Ext(g) != ".conflist"
  {
    hide Contains, Parses, Ext, DefaultPath, Wrote;
    assert ".conf" != ".conflist";
  }

  /** There is at most one first file, so a DEL that finds one finds that one. */
  lemma FirstIsUnique(d: Decoder, dir: Dir, cniName: string, lists: bool, f: string, g: string)
    requires IsFirst(d, dir, cniName, lists, f) && IsFirst(d, dir, cniName, lists, g)
    ensures f == g
  {
    hide Leq, Contains, Parses, Listed;
    LeqTotal(f, g);
  }

  lemma DefaultServes(d: Decoder, cniName: string)
    requires DefaultsTyped(d) && cniName in DEFAULTS
    ensures var path := DefaultPath(cniName);
            Ext(path) == ".conf" && Contains(path, cniName) && Parses(d, path, d.defaults(cniName)) && cniName != ""
  {
    var path := DefaultPath(cniName);
    var stem := NET_DIR + "/" + "10-" + cniName;
    assert path == stem + ".conf";
    ExtOfConf(stem);
    ConfIsNoList(path);
    assert OccursAt(path, cniName, |NET_DIR| + 4);
  }

  lemma ExtOfConf(stem: string)
    ensures Ext(stem + ".conf") == ".conf"
  {
    assert Last(stem + ".") == '.' && Ext(stem + ".") == ".";
    assert Init(stem + ".c") == stem + "." && Ext(stem + ".c") == ".c";
    assert Init(stem + ".co") == stem + ".c" && Ext(stem + ".co") == ".co";
    assert Init(stem + ".con") == stem + ".co" && Ext(stem + ".con") == ".con";
    assert Init(stem + ".conf") == stem + ".con";
  }

  // ---------- A later ADD gets in the way ----------

  /** Configurations are just their type. */
  const PLAIN: Decoder := Decoder((content: string) => Some(content), (_: string) => false, (n: string) => n)

  /** A pod with `cni: vlan,macvlan` on a node that has a configuration for vlan only. */
  const VLAN_FILE := NET_DIR + "/" + "20-vlan.conf"
  const VLANS: Job := Job(PLAIN, ["vlan", "macvlan"], map[VLAN_FILE := "vlan"], ["vlan", "macvlan"], (_: nat) => true)

  lemma {:induction false} LeqAfter(prefix: string, a: string, b: string)
    requires Leq(a, b)
    ensures Leq(prefix + a, prefix + b)
  {
    if prefix == "" {
      assert prefix + a == a && prefix + b == b;
    } else {
      LeqAfter(prefix[1..], a, b);
      assert (prefix + a)[1..] == prefix[1..] + a && (prefix + b)[1..] == prefix[1..] + b;
    }
  }

  lemma VlanFacts()
    ensures DefaultsTyped(PLAIN) && Wrote(VLANS, 2, "macvlan") && forall n :: Wrote(VLANS, 2, n) ==> n == "macvlan"
    ensures Ext(VLAN_FILE) == ".conf" && Contains(VLAN_FILE, "vlan") && Contains(DefaultPath("macvlan"), "vlan")
  {
    hide Ext, Leq;
    var x := VLANS;
    assert x.names[1] == "macvlan" && x.writable(1);
    assert OccursAt(x.binaries[1], "macvlan", 0);
    assert !Contains(VLAN_FILE, "macvlan") by { NoCharNoOccurrence(VLAN_FILE, "macvlan"); }
    ExtOfConf(NET_DIR + "/" + "20-vlan");
    assert NET_DIR + "/" + "20-vlan" + ".conf" == VLAN_FILE;
    assert OccursAt(VLAN_FILE, "vlan", |NET_DIR| + 4);
    assert OccursAt(DefaultPath("macvlan"), "vlan", |NET_DIR| + 7);
  }

  lemma MacvlanSortsFirst()
    ensures Leq(DefaultPath("macvlan"), VLAN_FILE) && DefaultPath("macvlan") != VLAN_FILE
  {
    assert Leq("10-macvlan.conf", "20-vlan.conf");
    LeqAfter(NET_DIR + "/", "10-macvlan.conf", "20-vlan.conf");
    assert NET_DIR + "/" + "10-macvlan.conf" == DefaultPath("macvlan");
    assert DefaultPath("macvlan")[|NET_DIR| + 1] != VLAN_FILE[|NET_DIR| + 1];
  }

  /** ADD of vlan uses its own file; ADD of macvlan writes a default file; DEL of vlan then selects that one. */
  lemma LaterAddCapturesDelete()
    ensures IsFirst(PLAIN, DirAt(VLANS, 1), "vlan", true, VLAN_FILE)
    ensures IsFirst(PLAIN, DirAt(VLANS, 2), "vlan", false, DefaultPath("macvlan")) &&
            DefaultPath("macvlan") != VLAN_FILE
  {
    hide Ext, Leq, Contains, DefaultPath, NoneServes, AnyContains, IsFirst, DirAt;
    VlanFacts();
    MacvlanSortsFirst();
    var x, f := VLANS, DefaultPath("macvlan");
    FirstAt(x, 1, "vlan", true, VLAN_FILE);
    FirstAt(x, 2, "vlan", false, f);
    DefaultServes(PLAIN, "macvlan");
    LeqTotal(VLAN_FILE, VLAN_FILE);
    LeqTotal(f, f);
    assert Parses(PLAIN, VLAN_FILE, "vlan") by { ConfIsNoList(VLAN_FILE); }
    assert forall n :: !Wrote(x, 1, n);
    assert Candidate(x, 2, "vlan", false, f);
  }

  // ---------- A conflist ----------

  /** Two files for one plugin, the first a list. */
  const LIST_FILE := NET_DIR + "/" + "10-flannel.conflist"
  const CONF_FILE := NET_DIR + "/" + "20-flannel.conf"
  const BOTH_KINDS: Dir := map[LIST_FILE := "list", CONF_FILE := "flannel"]
  const KINDS: Decoder :=
    Decoder((content: string) => if content == "list" then None else Some(content),
            (content: string) => content == "list", (n: string) => n)

  lemma ListFacts()
    ensures HasSuffix(LIST_FILE, ".conflist") && !HasSuffix(LIST_FILE, ".conf") && HasSuffix(CONF_FILE, ".conf")
    ensures Contains(LIST_FILE, "flannel") && Contains(CONF_FILE, "flannel")
    ensures LIST_FILE != CONF_FILE && !HasSuffix(CONF_FILE, ".conflist")
  {
    assert OccursAt(LIST_FILE, "flannel", |NET_DIR| + 4) && OccursAt(CONF_FILE, "flannel", |NET_DIR| + 4);
    SuffixSharesLast(LIST_FILE, ".conf");
    SuffixSharesLast(CONF_FILE, ".conflist");
  }

  lemma ListSortsFirst()
    ensures Leq(LIST_FILE, CONF_FILE)
  {
    assert Leq("10-flannel.conflist", "20-flannel.conf");
    LeqAfter(NET_DIR + "/", "10-flannel.conflist", "20-flannel.conf");
    assert NET_DIR + "/" + "10-flannel.conflist" == LIST_FILE && NET_DIR + "/" + "20-flannel.conf" == CONF_FILE;
  }

  /** ADD uses the conflist, and DEL, which does not look at conflists, the other file. */
  lemma ConflistServesAddOnly()
    ensures IsFirst(KINDS, BOTH_KINDS, "flannel", true, LIST_FILE)
    ensures IsFirst(KINDS, BOTH_KINDS, "flannel", false, CONF_FILE)
  {
    hide Ext, Leq, Contains, HasSuffix, Listed;
    ListFacts();
    ListSortsFirst();
    ListedMeans(LIST_FILE);
    ListedMeans(CONF_FILE);
    LeqTotal(LIST_FILE, LIST_FILE);
    LeqTotal(CONF_FILE, CONF_FILE);
    assert "flannel" != "list";
  }
}
