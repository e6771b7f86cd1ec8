/**
  The handlers broken into the steps they really take: one per selector, per
  listed policy, per line of the base chain or per named network.  Their steps
  implement them, so the worker model applies to the real handlers at this
  granularity.
 */
module HandlerSteps {
  import opened Options
  import opened Sequences
  import opened Text
  import opened Rules
  import opened Tables
  import opened Handlers
  import opened Workers

  type Op = State -> State

  /** A loop body applied for 0, 1, .., n-1. */
  function Iterate(body: (State, nat) -> State, s: State, n: nat): State {
    if n == 0 then s else body(Iterate(body, s, n - 1), n - 1)
  }

  function Unrolled(body: (State, nat) -> State, n: nat): seq<Op> {
    seq(n, i requires 0 <= i < n => (s: State) => body(s, i))
  }

  lemma {:induction false} ApplyAllAppend(a: seq<Op>, b: seq<Op>, s: State)
    ensures ApplyAll(a + b, s) == ApplyAll(b, ApplyAll(a, s))
  {
    if a == [] {
      assert a + b == b;
    } else {
      ApplyAllAppend(a[1..], b, a[0](s));
      assert (a + b)[0] == a[0] && (a + b)[1..] == a[1..] + b;
    }
  }

  lemma {:induction false} UnrolledIterates(body: (State, nat) -> State, s: State, n: nat)
    ensures ApplyAll(Unrolled(body, n), s) == Iterate(body, s, n)
  {
    if n > 0 {
      UnrolledIterates(body, s, n - 1);
      ApplyAllAppend(Unrolled(body, n - 1), Unrolled(body, n)[n - 1..], s);
      assert Unrolled(body, n) == Unrolled(body, n - 1) + Unrolled(body, n)[n - 1..];
      assert Unrolled(body, n)[n - 1..][1..] == [];
    }
  }

  // ---------- Bodies of the handlers' loops ----------

  function PopulateBody(env: Env, feed: Feed, namespace: string, chain: string, networks: Networks,
                        keys: seq<string>): (State, nat) -> State
  {
    (s: State, i: nat) => if i < |keys| then PopulateKey(env, feed, s, namespace, chain, networks, keys[i]) else s
  }

  lemma {:induction false} PopulateIterates(env: Env, feed: Feed, s: State, namespace: string, chain: string,
                                            networks: Networks, keys: seq<string>, n: nat)
    requires n <= |keys|
    ensures Iterate(PopulateBody(env, feed, namespace, chain, networks, keys), s, n) ==
            Populate(env, feed, s, namespace, chain, networks, keys[..n])
  {
    hide PopulateKey;
    if n > 0 {
      PopulateIterates(env, feed, s, namespace, chain, networks, keys, n - 1);
      Prefix(keys, n - 1);
    }
  }

  function AddInfoBody(env: Env, feed: Feed, name: string, namespace: string, subnet: string,
                       infos: seq<PolicyInfo>): (State, nat) -> State
  {
    (s: State, i: nat) => if i < |infos| then AddInfo(env, feed, s, name, namespace, subnet, infos[i]).0 else s
  }

  /** How many listed policies are visited: all, or up to the first refused jump. */
  function Visited(env: Env, feed: Feed, s: State, name: string, namespace: string, subnet: string,
                   infos: seq<PolicyInfo>): (n: nat)
    ensures n <= |infos|
  {
    if infos == [] then 0
    else if AddInfos(env, feed, s, name, namespace, subnet, Init(infos)).1 then |infos|
    else Visited(env, feed, s, name, namespace, subnet, Init(infos))
  }

  lemma {:induction false} AddInfosIterates(env: Env, feed: Feed, s: State, name: string, namespace: string,
                                            subnet: string, infos: seq<PolicyInfo>, n: nat)
    requires n <= |infos| && (n > 0 ==> AddInfos(env, feed, s, name, namespace, subnet, infos[..n - 1]).1)
    ensures Iterate(AddInfoBody(env, feed, name, namespace, subnet, infos), s, n) ==
            AddInfos(env, feed, s, name, namespace, subnet, infos[..n]).0
  {
    hide AddInfo;
    if n > 0 {
      Prefix(infos, n - 1);
      if n > 1 { Prefix(infos, n - 2); }
      AddInfosIterates(env, feed, s, name, namespace, subnet, infos, n - 1);
    }
  }

  lemma {:induction false} VisitedIsEnough(env: Env, feed: Feed, s: State, name: string, namespace: string,
                                           subnet: string, infos: seq<PolicyInfo>)
    ensures var n := Visited(env, feed, s, name, namespace, subnet, infos);
            && (n > 0 ==> AddInfos(env, feed, s, name, namespace, subnet, infos[..n - 1]).1)
            && AddInfos(env, feed, s, name, namespace, subnet, infos).0 ==
               AddInfos(env, feed, s, name, namespace, subnet, infos[..n]).0
  {
    hide AddInfo;
    if infos != [] {
      assert infos[..|infos|] == infos && infos[..|infos| - 1] == Init(infos);
      if !AddInfos(env, feed, s, name, namespace, subnet, Init(infos)).1 {
        VisitedIsEnough(env, feed, s, name, namespace, subnet, Init(infos));
        var n := Visited(env, feed, s, name, namespace, subnet, Init(infos));
        assert Init(infos)[..n] == infos[..n];
        assert n > 0 ==> Init(infos)[..n - 1] == infos[..n - 1];
      }
    }
  }

  function SweepBody(t: Table, lines: seq<string>, chain: string): (State, nat) -> State {
    (s: State, i: nat) =>
      if && i < |lines| && Contains(lines[i], NETWORK_PREFIX)
         && NetworkWord(Split(lines[i], " ")) !in SweepLines(t, lines[..i], chain).1
      then State(RemoveJump(s.table, NetworkWord(Split(lines[i], " ")), chain).0, s.tick)
      else s
  }

  lemma {:induction false} SweepIterates(s: State, lines: seq<string>, chain: string, n: nat)
    requires n <= |lines|
    ensures Iterate(SweepBody(s.table, lines, chain), s, n) == State(SweepLines(s.table, lines[..n], chain).0, s.tick)
  {
    hide RemoveJump, NetworkWord, Split, Contains;
    if n > 0 {
      SweepIterates(s, lines, chain, n - 1);
      Prefix(lines, n - 1);
    }
  }

  function RemoveJumpsBody(env: Env, namespace: string, chain: string, keys: seq<string>): (State, nat) -> State {
    (s: State, i: nat) =>
      if i < |keys| then State(RemoveJump(s.table, NetName(env.md5, Trim(keys[i]), namespace), chain).0, s.tick) else s
  }

  lemma {:induction false} RemoveJumpsIterates(env: Env, s: State, namespace: string, chain: string,
                                               keys: seq<string>, n: nat)
    requires n <= |keys|
    ensures Iterate(RemoveJumpsBody(env, namespace, chain, keys), s, n) ==
            State(RemoveJumps(env, s.table, namespace, chain, keys[..n]), s.tick)
  {
    hide RemoveJump, NetName, Trim;
    if n > 0 {
      RemoveJumpsIterates(env, s, namespace, chain, keys, n - 1);
      Prefix(keys, n - 1);
    }
  }

  function DeleteInfoBody(env: Env, name: string, namespace: string, subnet: string, infos: seq<PolicyInfo>)
    : (State, nat) -> State
  {
    (s: State, i: nat) =>
      if i < |infos| then State(DeleteInfo(env, s.table, name, namespace, subnet, infos[i]).0, s.tick) else s
  }

  function Retired(env: Env, t: Table, name: string, namespace: string, subnet: string,
                   infos: seq<PolicyInfo>): (n: nat)
    ensures n <= |infos|
  {
    if infos == [] then 0
    else if DeleteInfos(env, t, name, namespace, subnet, Init(infos)).1 then |infos|
    else Retired(env, t, name, namespace, subnet, Init(infos))
  }

  lemma {:induction false} DeleteInfosIterates(env: Env, s: State, name: string, namespace: string, subnet: string,
                                               infos: seq<PolicyInfo>, n: nat)
    requires n <= |infos| && (n > 0 ==> DeleteInfos(env, s.table, name, namespace, subnet, infos[..n - 1]).1)
    ensures Iterate(DeleteInfoBody(env, name, namespace, subnet, infos), s, n) ==
            State(DeleteInfos(env, s.table, name, namespace, subnet, infos[..n]).0, s.tick)
  {
    hide DeleteInfo;
    if n > 0 {
      Prefix(infos, n - 1);
      if n > 1 { Prefix(infos, n - 2); }
      DeleteInfosIterates(env, s, name, namespace, subnet, infos, n - 1);
    }
  }

  lemma {:induction false} RetiredIsEnough(env: Env, t: Table, name: string, namespace: string, subnet: string,
                                           infos: seq<PolicyInfo>)
    ensures var n := Retired(env, t, name, namespace, subnet, infos);
            && (n > 0 ==> DeleteInfos(env, t, name, namespace, subnet, infos[..n - 1]).1)
            && DeleteInfos(env, t, name, namespace, subnet, infos).0 ==
               DeleteInfos(env, t, name, namespace, subnet, infos[..n]).0
  {
    hide DeleteInfo;
    if infos != [] {
      assert infos[..|infos|] == infos && infos[..|infos| - 1] == Init(infos);
      if !DeleteInfos(env, t, name, namespace, subnet, Init(infos)).1 {
        RetiredIsEnough(env, t, name, namespace, subnet, Init(infos));
        var n := Retired(env, t, name, namespace, subnet, Init(infos));
        assert Init(infos)[..n] == infos[..n];
        assert n > 0 ==> Init(infos)[..n - 1] == infos[..n - 1];
      }
    }
  }

  // ---------- Whole handlers ----------

  function Reads(n: nat): Op { (s: State) => State(s.table, s.tick + n) }

  function Resets(chain: string): Op { (s: State) => State(ClearChain(s.table, chain), s.tick + 1) }

  function PopulateSteps(env: Env, feed: Feed, tick: nat, namespace: string, chain: string,
                         networks: Networks): seq<Op>
  {
    var keys := feed(tick).order(networks.Keys);
    Unrolled(PopulateBody(env, feed, namespace, chain, networks, keys), |keys|)
  }

  lemma PopulateStepsImplement(env: Env, feed: Feed, s: State, namespace: string, chain: string, networks: Networks)
    ensures ApplyAll(PopulateSteps(env, feed, s.tick, namespace, chain, networks), s) ==
            Populate(env, feed, s, namespace, chain, networks, feed(s.tick).order(networks.Keys))
  {
    hide Iterate, Populate, ApplyAll, Unrolled;
    var keys := feed(s.tick).order(networks.Keys);
    UnrolledIterates(PopulateBody(env, feed, namespace, chain, networks, keys), s, |keys|);
    PopulateIterates(env, feed, s, namespace, chain, networks, keys, |keys|);
    assert keys[..|keys|] == keys;
  }

  /** A policy ADD or UPDATE: read and reset, then one step per selector, or per line of the base chain. */
  function PolicySteps(env: Env, feed: Feed, s: State, name: string, namespace: string, update: bool): seq<Op> {
    var found := FindPolicy(feed(s.tick).policies, name, namespace);
    if found.None? then [Reads(1)]
    else
      var nets := Parse(env, found.value.annotation);
      var chain := PolName(env.md5, name, namespace);
      if nets.None? then [Reads(1)]
      else if !update || nets.value != map[] then
        [Resets(chain)] + PopulateSteps(env, feed, s.tick + 1, namespace, chain, nets.value)
      else
        var t := ClearChain(s.table, chain);
        if BASE !in t then [Resets(chain)]
        else [Resets(chain)] + Unrolled(SweepBody(t, Listing(t, BASE), chain), |Listing(t, BASE)|)
  }

  function NetworkAddSteps(env: Env, feed: Feed, s: State, name: string, namespace: string): seq<Op> {
    var key := (namespace, Trim(name));
    if key !in feed(s.tick).networks then [Reads(1)]
    else
      var subnet := feed(s.tick).networks[key];
      var infos := ListPolicies(env, feed(s.tick + 1), Trim(name), namespace);
      [Reads(2)] + Unrolled(AddInfoBody(env, feed, Trim(name), namespace, subnet, infos),
                            Visited(env, feed, State(s.table, s.tick + 2), Trim(name), namespace, subnet, infos))
  }

  function PolicyDeleteSteps(env: Env, feed: Feed, s: State, name: string, namespace: string,
                             annotation: string): seq<Op>
  {
    var nets := Parse(env, annotation);
    if nets.None? then []
    else
      var chain := PolName(env.md5, name, namespace);
      var keys := feed(s.tick).order(nets.value.Keys);
      Unrolled(RemoveJumpsBody(env, namespace, chain, keys), |keys|) +
      [(u: State) => State(FlushDelete(u.table, chain).0, u.tick)]
  }

  function NetworkDeleteSteps(env: Env, feed: Feed, s: State, name: string, namespace: string,
                              subnet: string): seq<Op>
  {
    var infos := ListPolicies(env, feed(s.tick), name, namespace);
    [Reads(1)] + Unrolled(DeleteInfoBody(env, name, namespace, subnet, infos),
                          Retired(env, s.table, name, namespace, subnet, infos))
  }

  function Steps(env: Env, feed: Feed, s: State, e: Event): seq<Op> {
    match e
    case PolicyAdded(name, namespace) => PolicySteps(env, feed, s, name, namespace, false)
    case PolicyUpdated(name, namespace, _) => PolicySteps(env, feed, s, name, namespace, true)
    case PolicyDeleted(name, namespace, annotation) => PolicyDeleteSteps(env, feed, s, name, namespace, annotation)
    case NetworkAdded(name, namespace) => NetworkAddSteps(env, feed, s, name, namespace)
    case NetworkUpdated(_, _) => [Reads(1)]
    case NetworkDeleted(name, namespace, subnet) => NetworkDeleteSteps(env, feed, s, name, namespace, subnet)
    case Unknown => []
  }

  lemma FirstThen(op: Op, rest: seq<Op>, s: State)
    ensures ApplyAll([op] + rest, s) == ApplyAll(rest, op(s))
    ensures ApplyAll([op], s) == op(s)
  {
    assert ([op] + rest)[1..] == rest;
  }

  lemma PolicyStepsImplement(env: Env, feed: Feed, s: State, name: string, namespace: string, update: bool)
    ensures ApplyAll(PolicySteps(env, feed, s, name, namespace, update), s) ==
            (if update then PolicyUpdate(env, feed, s, name, namespace) else PolicyAdd(env, feed, s, name, namespace)).0
  {
    hide ApplyAll, Unrolled, Populate, PopulateSteps, SweepLines, Listing;
    hide Parse, FindPolicy, PolName, Iterate, SweepBody;
    FirstThen(Reads(1), [], s);
    var found := FindPolicy(feed(s.tick).policies, name, namespace);
    if found.Some? && Parse(env, found.value.annotation).Some? {
      var nets := Parse(env, found.value.annotation).value;
      var chain := PolName(env.md5, name, namespace);
      var s1 := Resets(chain)(s);
      FirstThen(Resets(chain), PopulateSteps(env, feed, s.tick + 1, namespace, chain, nets), s);
      PopulateStepsImplement(env, feed, s1, namespace, chain, nets);
      if BASE in s1.table {
        var lines := Listing(s1.table, BASE);
        FirstThen(Resets(chain), Unrolled(SweepBody(s1.table, lines, chain), |lines|), s);
        UnrolledIterates(SweepBody(s1.table, lines, chain), s1, |lines|);
        SweepIterates(s1, lines, chain, |lines|);
        assert lines[..|lines|] == lines;
      }
    }
  }

  lemma NetworkAddStepsImplement(env: Env, feed: Feed, s: State, name: string, namespace: string)
    ensures ApplyAll(NetworkAddSteps(env, feed, s, name, namespace), s) == NetworkAdd(env, feed, s, name, namespace).0
  {
    hide ApplyAll, Unrolled, AddInfos, ListPolicies, Trim, Iterate, AddInfoBody, Visited;
    FirstThen(Reads(1), [], s);
    var key := (namespace, Trim(name));
    if key in feed(s.tick).networks {
      var subnet := feed(s.tick).networks[key];
      var infos := ListPolicies(env, feed(s.tick + 1), Trim(name), namespace);
      var s2 := Reads(2)(s);
      var n := Visited(env, feed, s2, Trim(name), namespace, subnet, infos);
      var body := AddInfoBody(env, feed, Trim(name), namespace, subnet, infos);
      FirstThen(Reads(2), Unrolled(body, n), s);
      UnrolledIterates(body, s2, n);
      VisitedIsEnough(env, feed, s2, Trim(name), namespace, subnet, infos);
      AddInfosIterates(env, feed, s2, Trim(name), namespace, subnet, infos, n);
    }
  }

  lemma PolicyDeleteStepsImplement(env: Env, feed: Feed, s: State, name: string, namespace: string, annotation: string)
    ensures ApplyAll(PolicyDeleteSteps(env, feed, s, name, namespace, annotation), s) ==
            PolicyDelete(env, feed, s, name, namespace, annotation).0
  {
    hide Unrolled, RemoveJumps, FlushDelete, Parse, PolName, Iterate, RemoveJumpsBody;
    var nets := Parse(env, annotation);
    if nets.Some? {
      var chain := PolName(env.md5, name, namespace);
      var keys := feed(s.tick).order(nets.value.Keys);
      var body := RemoveJumpsBody(env, namespace, chain, keys);
      var last: Op := (u: State) => State(FlushDelete(u.table, chain).0, u.tick);
      ApplyAllAppend(Unrolled(body, |keys|), [last], s);
      UnrolledIterates(body, s, |keys|);
      RemoveJumpsIterates(env, s, namespace, chain, keys, |keys|);
      assert keys[..|keys|] == keys;
      FirstThen(last, [], Iterate(body, s, |keys|));
      assert PolicyDeleteSteps(env, feed, s, name, namespace, annotation) == Unrolled(body, |keys|) + [last];
    }
  }

  lemma NetworkDeleteStepsImplement(env: Env, feed: Feed, s: State, name: string, namespace: string, subnet: string)
    ensures ApplyAll(NetworkDeleteSteps(env, feed, s, name, namespace, subnet), s) ==
            NetworkDelete(env, feed, s, name, namespace, subnet).0
  {
    hide ApplyAll, Unrolled, DeleteInfos, ListPolicies, Iterate, DeleteInfoBody, Retired;
    var infos := ListPolicies(env, feed(s.tick), name, namespace);
    var s1 := Reads(1)(s);
    var n := Retired(env, s.table, name, namespace, subnet, infos);
    var body := DeleteInfoBody(env, name, namespace, subnet, infos);
    FirstThen(Reads(1), Unrolled(body, n), s);
    UnrolledIterates(body, s1, n);
    RetiredIsEnough(env, s.table, name, namespace, subnet, infos);
    DeleteInfosIterates(env, s1, name, namespace, subnet, infos, n);
  }

  lemma StepsImplement(env: Env, feed: Feed, s: State, e: Event)
    ensures ApplyAll(Steps(env, feed, s, e), s) == Handle(env, feed, s, e).0
  {
    hide PolicySteps, PolicyDeleteSteps, NetworkAddSteps, NetworkDeleteSteps, PolicyAdd;
    hide PolicyUpdate, PolicyDelete, NetworkAdd, NetworkDelete, NetworkUpdate;
    match e
    case PolicyAdded(name, namespace) => PolicyStepsImplement(env, feed, s, name, namespace, false);
    case PolicyUpdated(name, namespace, _) => PolicyStepsImplement(env, feed, s, name, namespace, true);
    case PolicyDeleted(name, namespace, annotation) =>
      PolicyDeleteStepsImplement(env, feed, s, name, namespace, annotation);
    case NetworkAdded(name, namespace) => NetworkAddStepsImplement(env, feed, s, name, namespace);
    case NetworkUpdated(name, namespace) =>
      NetworkUpdateIs(env, feed, s, name, namespace);
      FirstThen(Reads(1), [], s);
    case NetworkDeleted(name, namespace, subnet) => NetworkDeleteStepsImplement(env, feed, s, name, namespace, subnet);
    case Unknown =>
  }

  /** The steps of syncHandler on a key. */
  function SyncSteps(env: Env, feed: Feed): Micro {
    (key: string, s: State) =>
      match env.decode(key)
      case None => []
      case Some(fields) => Steps(env, feed, s, EventOf(fields))
  }

  /** The real handlers, at this granularity, are what the worker model asks for. */
  lemma HandlersImplement(env: Env, feed: Feed)
    ensures Implements(env, feed, SyncSteps(env, feed))
  {
    hide Steps, Handle, EventOf;
    forall key, s ensures ApplyAll(SyncSteps(env, feed)(key, s), s) == Sync(env, feed, s, key).0 {
      match env.decode(key)
      case None =>
      case Some(fields) => StepsImplement(env, feed, s, EventOf(fields));
    }
  }
}
