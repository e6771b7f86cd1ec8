/**
  When a network's packets are decided on.  A restart empties the base chain
  and keeps the network chains; a network whose chain survived is served again
  only by its own ADD, and from then on none of its packets passes undecided.
 */
module Enforcement {
  import opened Sequences
  import opened Text
  import opened Rules
  import opened Tables
  import opened Invariant
  import opened Preservation
  import opened Pairing
  import opened Handlers
  import opened Frames
  import opened Safety
  import opened Populating
  import opened Exactness
  import opened Runs
  import V = Verdict

  /** Right after a start every packet passes. */
  lemma NothingDecidedAfterStart(t: Table, packet: V.Packet, inside: V.Subnets, depth: nat)
    requires Startable(t)
    ensures BASE in Restart(t).0 && V.Eval(Restart(t).0, Restart(t).0[BASE], packet, inside, depth) == V.Passed
  {
    hide Restart, Startable;
    RestartEstablishesInv(t, _ => "");
  }

  // ---------- Deletions never bring a base rule ----------

  ghost predicate Shrinks(t: Table, u: Table) {
    BASE in t && BASE in u && forall r :: r in u[BASE] ==> r in t[BASE]
  }

  lemma RemoveJumpShrinks(t: Table, c: string, p: string, h: Hyp)
    requires Safe(t, h) && IsNet(c) && IsPol(p)
    ensures Shrinks(t, RemoveJump(t, c, p).0)
  {
    hide Kind, ChainOk, RemoveJump, OtherJump, Without;
    KindFacts();
    if c in t {
      RemoveJumpExact(t, c, p, h.subnetOf);
      WithoutMembers(t[BASE], c);
    } else {
      MissingChainStays(t, c, p);
    }
  }

  lemma MissingChainStays(t: Table, c: string, p: string)
    requires c !in t
    ensures RemoveJump(t, c, p).0 == t
  {
  }

  lemma {:induction false} SweepShrinks(t: Table, rules: seq<Rule>, p: string, h: Hyp)
    requires Safe(t, h) && IsPol(p) && forall r :: r in rules ==> IsNet(r.target)
    ensures Shrinks(t, SweepRules(t, rules, p).0)
  {
    hide Kind, Safe, RemoveJump;
    if rules == [] {
      SafeHasBase(t, h);
    } else {
      assert Last(rules) in rules;
      SweepShrinks(t, Init(rules), p, h);
      SweepRulesSafe(t, Init(rules), p, h);
      RemoveJumpShrinks(SweepRules(t, Init(rules), p).0, Last(rules).target, p, h);
    }
  }

  lemma {:induction false} RemoveJumpsShrink(env: Env, t: Table, namespace: string, p: string, keys: seq<string>,
                                             h: Hyp)
    requires Safe(t, h) && IsPol(p)
    ensures Shrinks(t, RemoveJumps(env, t, namespace, p, keys))
  {
    hide Kind, Safe, RemoveJump, NetName, Trim;
    if keys == [] {
      SafeHasBase(t, h);
    } else {
      RemoveJumpsShrink(env, t, namespace, p, Init(keys), h);
      RemoveJumpsSafe(env, t, namespace, p, Init(keys), h);
      var t1 := RemoveJumps(env, t, namespace, p, Init(keys));
      RemoveJumpShrinks(t1, NetName(env.md5, Trim(Last(keys)), namespace), p, h);
    }
  }

  lemma DeleteInfoShrinks(env: Env, t: Table, name: string, namespace: string, subnet: string, info: PolicyInfo, h: Hyp)
    requires Safe(t, h)
    ensures Shrinks(t, DeleteInfo(env, t, name, namespace, subnet, info).0)
  {
    hide Kind, ChainOk, RemoveNetwork, DropTwo, NetName, PolName, Without;
    KindFacts();
    var c := NetName(env.md5, name, namespace);
    RemoveNetworkExact(t, c, h.subnetOf);
    WithoutMembers(t[BASE], c);
  }

  lemma {:induction false} DeleteInfosShrink(env: Env, t: Table, name: string, namespace: string, subnet: string,
                                             infos: seq<PolicyInfo>, h: Hyp)
    requires Safe(t, h) && EventOk(h, NetworkDeleted(name, namespace, subnet))
    ensures Shrinks(t, DeleteInfos(env, t, name, namespace, subnet, infos).0)
  {
    hide Safe, DeleteInfo;
    if infos == [] {
      SafeHasBase(t, h);
    } else {
      DeleteInfosShrink(env, t, name, namespace, subnet, Init(infos), h);
      DeleteInfosSafe(env, t, name, namespace, subnet, Init(infos), h);
      DeleteInfoShrinks(env, DeleteInfos(env, t, name, namespace, subnet, Init(infos)).0, name, namespace, subnet,
                        Last(infos), h);
    }
  }

  // ---------- Which handler serves a network again ----------

  /** New base rules of a policy handler lead to chains that were not there. */
  lemma PolicyHandlersServeNew(env: Env, feed: Feed, s: State, name: string, namespace: string, update: bool, h: Hyp)
    requires Safe(s.table, h)
    ensures var s' := if update then PolicyUpdate(env, feed, s, name, namespace)
                      else PolicyAdd(env, feed, s, name, namespace);
            var u := s'.0.table;
            BASE in s.table && BASE in u && forall r :: r in u[BASE] && r !in s.table[BASE] ==> r.target !in s.table
  {
    hide Kind, Populate, Parse, FindPolicy, PolName, SweepLines, SweepRules, Listing, ChainOk;
    KindFacts();
    var found := FindPolicy(feed(s.tick).policies, name, namespace);
    if found.Some? && Parse(env, found.value.annotation).Some? {
      var nets, chain := Parse(env, found.value.annotation).value, PolName(env.md5, name, namespace);
      var s1 := State(ClearChain(s.table, chain), s.tick + 1);
      ClearPolicySafe(s.table, chain, h);
      PopulateServesNew(env, feed, s1, namespace, chain, nets, feed(s1.tick).order(nets.Keys));
      SweepIsSweepRules(s1.table, chain);
      forall r | r in s1.table[BASE] ensures IsNet(r.target) { BaseRuleOf(s1.table, r); }
      SweepShrinks(s1.table, s1.table[BASE], chain, h);
    }
  }

  lemma PolicyDeleteServesNone(env: Env, feed: Feed, s: State, name: string, namespace: string, annotation: string,
                               h: Hyp)
    requires Safe(s.table, h)
    ensures Shrinks(s.table, PolicyDelete(env, feed, s, name, namespace, annotation).0.table)
  {
    hide Kind, Safe, Parse, PolName, RemoveJumps, Referenced;
    KindFacts();
    SafeHasBase(s.table, h);
    var nets := Parse(env, annotation);
    if nets.Some? {
      var chain := PolName(env.md5, name, namespace);
      RemoveJumpsShrink(env, s.table, namespace, chain, feed(s.tick).order(nets.value.Keys), h);
    }
  }

  /**
    Handling an event brings a base rule to a network chain that was already
    there only if the event is that network's own ADD.
   */
  lemma OnlyOwnAddServesAgain(env: Env, feed: Feed, s: State, e: Event, h: Hyp)
    requires Safe(s.table, h) && EventOk(h, e)
    ensures var u := Handle(env, feed, s, e).0.table;
            && BASE in s.table && BASE in u
            && forall r :: r in u[BASE] && r !in s.table[BASE] && r.target in s.table ==>
                 e.NetworkAdded? && r.target == NetName(env.md5, Trim(e.name), e.namespace)
  {
    hide Safe, PolicyAdd, PolicyUpdate, PolicyDelete, NetworkAdd;
    hide NetworkUpdate, DeleteInfos, ListPolicies, NetName, Trim;
    SafeHasBase(s.table, h);
    match e
    case PolicyAdded(name, namespace) => PolicyHandlersServeNew(env, feed, s, name, namespace, false, h);
    case PolicyUpdated(name, namespace, _) => PolicyHandlersServeNew(env, feed, s, name, namespace, true, h);
    case PolicyDeleted(name, namespace, annotation) =>
      PolicyDeleteServesNone(env, feed, s, name, namespace, annotation, h);
    case NetworkAdded(name, namespace) =>
      SafeHasNoBlank(s.table, h);
      NetworkAddKeeps(env, feed, s, name, namespace);
    case NetworkUpdated(name, namespace) => NetworkUpdateIs(env, feed, s, name, namespace);
    case NetworkDeleted(name, namespace, subnet) =>
      DeleteInfosShrink(env, s.table, name, namespace, subnet, ListPolicies(env, feed(s.tick), name, namespace), h);
    case Unknown =>
  }

  lemma SafeHasNoBlank(t: Table, h: Hyp)
    requires Safe(t, h)
    ensures "" !in t
  {
    hide Kind, ChainOk;
  }

  ghost predicate Unserved(t: Table, c: string) {
    BASE in t && forall r :: r in t[BASE] ==> r.target != c
  }

  /** The key is no ADD of a network with that chain. */
  ghost predicate OtherKey(env: Env, key: string, c: string) {
    env.decode(key).Some? ==>
      var e := EventOf(env.decode(key).value);
      !(e.NetworkAdded? && NetName(env.md5, Trim(e.name), e.namespace) == c)
  }

  /** Over a whole run the network's chain is there, and none of the keys handled is its ADD. */
  ghost predicate LeftAlone(env: Env, feed: Feed, s: State, steps: seq<RunStep>, c: string) {
    forall i :: 0 <= i < |steps| ==>
      c in Run(env, feed, s, steps[..i]).table && (steps[i].Work? ==> OtherKey(env, steps[i].key, c))
  }

  lemma LeftAloneInit(env: Env, feed: Feed, s: State, steps: seq<RunStep>, c: string)
    requires steps != [] && LeftAlone(env, feed, s, steps, c)
    ensures LeftAlone(env, feed, s, Init(steps), c)
    ensures c in Run(env, feed, s, Init(steps)).table && (Last(steps).Work? ==> OtherKey(env, Last(steps).key, c))
  {
    hide Run, OtherKey;
    var n := |steps| - 1;
    assert steps[..n] == Init(steps) && steps[n] == Last(steps);
    forall i | 0 <= i < n
      ensures c in Run(env, feed, s, Init(steps)[..i]).table &&
              (Init(steps)[i].Work? ==> OtherKey(env, Init(steps)[i].key, c))
    {
      assert Init(steps)[..i] == steps[..i] && Init(steps)[i] == steps[i];
    }
  }

  /**
    A network chain that survives a start stays unserved, whatever policies come
    and go and however often the controller is started again, until the
    network's own ADD is handled.
   */
  lemma {:induction false} UnservedUntilOwnAdd(env: Env, feed: Feed, t: Table, tick: nat, steps: seq<RunStep>, h: Hyp,
                                               c: string)
    requires Startable(t) && (h.paired ==> Paired(t, h.universe)) && h.foreign == Restart(t).0
    requires FixedSubnets(env, feed, h) && StepsOk(env, h, steps)
    requires LeftAlone(env, feed, State(Restart(t).0, tick), steps, c)
    ensures Unserved(Run(env, feed, State(Restart(t).0, tick), steps).table, c)
  {
    hide Startable, Restart, Sync, Partly, FixedSubnets, Safe, KeyOk, Paired, LeftAlone, OtherKey;
    var s0 := State(Restart(t).0, tick);
    if steps == [] {
      RestartEstablishesInv(t, h.subnetOf);
    } else {
      LeftAloneInit(env, feed, s0, steps, c);
      UnservedUntilOwnAdd(env, feed, t, tick, Init(steps), h, c);
      EveryRunIsSafe(env, feed, t, tick, Init(steps), h);
      var s1 := Run(env, feed, s0, Init(steps));
      assert steps[|steps| - 1] == Last(steps);
      match Last(steps)
      case Start => RestartUnserves(s1.table, c);
      case Crash(key, n) => RestartUnserves(Partly(env, feed, s1, key, n).table, c);
      case Work(key) => WorkLeavesUnserved(env, feed, s1, key, h, c);
    }
  }

  lemma RestartUnserves(t: Table, c: string)
    ensures Unserved(Restart(t).0, c)
  {
    assert BASE != FORWARD;
  }

  lemma WorkLeavesUnserved(env: Env, feed: Feed, s: State, key: string, h: Hyp, c: string)
    requires Safe(s.table, h) && KeyOk(env, h, key) && OtherKey(env, key, c) && c in s.table && Unserved(s.table, c)
    ensures Unserved(Sync(env, feed, s, key).0.table, c)
  {
    hide Safe, Handle, EventOf, NetName, Trim, EventOk;
    if env.decode(key).Some? { OnlyOwnAddServesAgain(env, feed, s, EventOf(env.decode(key).value), h); }
  }

  // ---------- From its ADD on ----------

  lemma SomeBaseRuleDecides(t: Table, r: Rule, packet: V.Packet, inside: V.Subnets, depth: nat)
    requires Shape(t) && depth >= 2 && r in t[BASE] && V.Matches(r.on, packet, inside)
    ensures V.Eval(t, t[BASE], packet, inside, depth) in {V.Accepted, V.Rejected}
  {
    hide Kind, ChainOk, V.Eval, V.Admitted;
    V.GraphMeaning(t, packet, inside, depth);
    var i :| 0 <= i < |t[BASE]| && t[BASE][i] == r;
    assert V.First(t[BASE], packet, inside) <= i;
  }

  /**
    After its ADD a network is served iff it was before, or some policy selects
    it and its subnet is well formed, also if the ADD reports an error because a
    policy has no chain yet.  A network that is served has every packet from or
    to its subnet accepted or rejected; otherwise the base chain stays as it is,
    and the ADD of a network with a malformed subnet may still report success.
   */
  lemma OwnAddEnforces(env: Env, feed: Feed, s: State, name: string, namespace: string, h: Hyp,
                       packet: V.Packet, inside: V.Subnets, depth: nat)
    requires Safe(s.table, h) && FixedSubnets(env, feed, h) && depth >= 2
    requires (namespace, Trim(name)) in feed(s.tick).networks
    ensures var infos := ListPolicies(env, feed(s.tick + 1), Trim(name), namespace);
            var subnet := feed(s.tick).networks[(namespace, Trim(name))];
            var u := NetworkAdd(env, feed, s, name, namespace).0.table;
            var c := NetName(env.md5, Trim(name), namespace);
            && BASE in s.table && BASE in u
            && (Served(u, c, subnet) <==>
                Served(s.table, c, subnet) || (LastSelecting(infos).Some? && Cidr(subnet)))
            && (LastSelecting(infos).None? || !Cidr(subnet) ==> u[BASE] == s.table[BASE])
            && (Served(u, c, subnet) && (inside(subnet, packet.src) || inside(subnet, packet.dst)) ==>
                  V.Eval(u, u[BASE], packet, inside, depth) in {V.Accepted, V.Rejected})
  {
    hide Kind, Cidr, Trim, NetName, Safe, Reports, NetworkAdd, SelectorsHaveChains, BaseWith, FixedSubnets, V.Eval;
    hide LastSelecting;
    SafeHasBase(s.table, h);
    SafeHasNoBlank(s.table, h);
    NetworkAddKeepsLastSelector(env, feed, s, name, namespace);
    NetworkAddSafe(env, feed, s, name, namespace, h);
    var infos := ListPolicies(env, feed(s.tick + 1), Trim(name), namespace);
    var subnet := feed(s.tick).networks[(namespace, Trim(name))];
    var u, c := NetworkAdd(env, feed, s, name, namespace).0.table, NetName(env.md5, Trim(name), namespace);
    SafeHasShape(u, h);
    if LastSelecting(infos).None? { NoneSelects(env.md5, s.table, namespace, infos); }
    if Served(u, c, subnet) {
      if inside(subnet, packet.src) { SomeBaseRuleDecides(u, Rule(Src(subnet), c), packet, inside, depth); }
      if inside(subnet, packet.dst) { SomeBaseRuleDecides(u, Rule(Dst(subnet), c), packet, inside, depth); }
    }
  }

  lemma {:induction false} NoneSelects(md5: string -> Digest, t: Table, namespace: string, infos: seq<PolicyInfo>)
    requires LastSelecting(infos).None?
    ensures SelectorsHaveChains(md5, t, namespace, infos)
  {
    hide PolName, SelectorsHaveChains;
    if infos == [] {
      NoSelectors(md5, t, namespace);
    } else {
      NoneSelects(md5, t, namespace, Init(infos));
      SelectorsHaveChainsSnoc(md5, t, namespace, infos);
    }
  }
}
