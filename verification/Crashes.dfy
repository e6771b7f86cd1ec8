/**
  Runs in which the controller may die between any two iptables commands, and
  subnets may change as they like: the layers survive at every instant.
 */
module Crashes {
  import opened Sequences
  import opened Text
  import opened Rules
  import opened Tables
  import opened Invariant
  import opened Preservation
  import opened Handlers
  import opened Frames
  import opened Safety
  import opened Exactness
  import opened Commands
  import opened CommandTraces
  import V = Verdict

  // ---------- Runs with crashes between commands ----------

  /** The table after the first `n` commands on a key. */
  ghost function After(env: Env, feed: Feed, s: State, key: string, n: nat): Table {
    var cmds := SyncCommands(env, feed, s, key);
    ExecAll(s.table, if n < |cmds| then cmds[..n] else cmds)
  }

  lemma AfterIsLayered(env: Env, feed: Feed, s: State, key: string, n: nat)
    requires Layered(s.table)
    ensures Layered(After(env, feed, s, key, n)) && ForeignAs(After(env, feed, s, key, n), s.table)
  {
    hide Layered, SyncCommands, Sync, ExecAll, Kind, Typed;
    SyncLeads(env, feed, s, key);
    var cmds := SyncCommands(env, feed, s, key);
    CommandsKeepLayers(s.table, if n < |cmds| then cmds[..n] else cmds);
  }

  /**
    The controller is started again, handles a key, or dies after `n` commands
    on it, having read the caches up to `tick`.
   */
  datatype LifeStep = Starts | Handles(key: string) | Dies(key: string, n: nat, tick: nat)

  ghost function Live(env: Env, feed: Feed, s: State, steps: seq<LifeStep>): State {
    if steps == [] then s
    else
      var s1 := Live(env, feed, s, Init(steps));
      match Last(steps)
      case Starts => State(Restart(s1.table).0, s1.tick)
      case Handles(key) => Sync(env, feed, s1, key).0
      case Dies(key, n, tick) => State(Restart(After(env, feed, s1, key, n)).0, tick)
  }

  /** The table of a node before the first start: like `Layered`, but for the base chain. */
  ghost predicate Ready(t: Table) {
    "" !in t && FORWARD in t && forall c :: c in t ==> Kind(c) == BaseChain || LayerOk(t, c)
  }

  lemma RestartLayers(t: Table)
    requires Ready(t)
    ensures Layered(Restart(t).0) && Restart(t).1 == Done && Restart(t).0[BASE] == []
    ensures FORWARD in Restart(t).0 && Jump(BASE) in Restart(t).0[FORWARD]
  {
    hide Kind, Cidr;
    KindFacts();
    var t1 := ClearChain(t, BASE);
    var t2 := Restart(t).0;
    if Jump(BASE) !in t1[FORWARD] {
      assert t2[FORWARD] == t1[FORWARD][..0] + [Jump(BASE)] + t1[FORWARD][0..];
    }
    forall d | d in t2 ensures LayerOk(t2, d) {
      if d in t && d != BASE { assert LayerOk(t, d); }
    }
  }

  lemma RestartAgainLayers(t: Table, foreign: Table)
    requires Layered(t) && ForeignAs(t, foreign) && FORWARD in foreign && Jump(BASE) in foreign[FORWARD]
    ensures Layered(Restart(t).0) && ForeignAs(Restart(t).0, foreign)
  {
    hide Kind, LayerOk;
    KindFacts();
    RestartAgain(t);
    RestartLayers(t);
  }

  lemma ForeignAsChain(t: Table, u: Table, f: Table)
    requires ForeignAs(t, u) && ForeignAs(u, f)
    ensures ForeignAs(t, f)
  {
    hide Kind;
  }

  lemma LastCommand(env: Env, feed: Feed, s: State, key: string)
    requires Layered(s.table)
    ensures Sync(env, feed, s, key).0.table == After(env, feed, s, key, |SyncCommands(env, feed, s, key)|)
  {
    hide Layered, SyncCommands, Sync, AllTyped;
    SyncLeads(env, feed, s, key);
  }

  /**
    Layers at every instant.  Whatever subnets the networks have and however
    they change, whatever the caches show and whenever the controller dies: after
    every step of every run, and after any number of commands of the next
    handler, base rules lead to existing network chains, these jump to existing
    policy chains or reject, policy chains only accept, and the chains of other
    software are as the first start left them.
   */
  lemma {:induction false} EveryInstantIsLayered(env: Env, feed: Feed, t: Table, tick: nat, steps: seq<LifeStep>)
    requires Ready(t)
    ensures var s := Live(env, feed, State(Restart(t).0, tick), steps);
            && Layered(s.table) && ForeignAs(s.table, Restart(t).0)
            && forall key, n: nat ::
                 Layered(After(env, feed, s, key, n)) && ForeignAs(After(env, feed, s, key, n), Restart(t).0)
  {
    hide Kind, Ready, Layered, Restart, Sync, After, ForeignAs;
    var t0 := Restart(t).0;
    var s0 := State(t0, tick);
    RestartLayers(t);
    if steps == [] {
      SameForeign(t0);
    } else {
      EveryInstantIsLayered(env, feed, t, tick, Init(steps));
      var s1 := Live(env, feed, s0, Init(steps));
      match Last(steps) {
        case Starts => RestartAgainLayers(s1.table, t0);
        case Handles(key) => LastCommand(env, feed, s1, key);
        case Dies(key, n, _) => RestartAgainLayers(After(env, feed, s1, key, n), t0);
      }
    }
    var s := Live(env, feed, s0, steps);
    forall key, n: nat
      ensures Layered(After(env, feed, s, key, n)) && ForeignAs(After(env, feed, s, key, n), t0)
    {
      AfterIsLayered(env, feed, s, key, n);
      ForeignAsChain(After(env, feed, s, key, n), s.table, t0);
    }
  }

  lemma SameForeign(t: Table)
    ensures ForeignAs(t, t)
  {
  }

  // ---------- What the layers are good for ----------

  lemma {:induction false} AcceptOrPass(t: Table, rules: seq<Rule>, p: V.Packet, inside: V.Subnets, depth: nat)
    requires forall r :: r in rules ==> PeerRule(r)
    ensures V.Eval(t, rules, p, inside, depth) in {V.Accepted, V.Passed}
    decreases |rules|
  {
    hide Cidr;
    if rules != [] {
      assert PeerRule(rules[0]);
      AcceptOrPass(t, rules[1..], p, inside, depth);
    }
  }

  lemma {:induction false} NetworkNeverTooDeep(t: Table, rules: seq<Rule>, p: V.Packet, inside: V.Subnets, depth: nat)
    requires Layered(t) && depth >= 1 && forall r :: r in rules ==> r == REJECT_ALL || PolicyJump(t, r)
    ensures V.Eval(t, rules, p, inside, depth) != V.TooDeep
    decreases |rules|
  {
    hide Kind, Cidr;
    KindFacts();
    if rules != [] {
      assert rules[0] in rules;
      NetworkNeverTooDeep(t, rules[1..], p, inside, depth);
      if rules[0] != REJECT_ALL {
        assert PolicyJump(t, rules[0]) && LayerOk(t, rules[0].target);
        AcceptOrPass(t, t[rules[0].target], p, inside, depth - 1);
      }
    }
  }

  /** No packet is caught in a loop or falls off a dangling jump: two nested jumps suffice at every instant. */
  lemma {:induction false} NeverTooDeep(t: Table, rules: seq<Rule>, p: V.Packet, inside: V.Subnets, depth: nat)
    requires Layered(t) && depth >= 2 && forall r :: r in rules ==> BaseRule(t, r)
    ensures V.Eval(t, rules, p, inside, depth) != V.TooDeep
    decreases |rules|
  {
    hide Kind, Cidr;
    KindFacts();
    if rules != [] {
      assert BaseRule(t, rules[0]) && LayerOk(t, rules[0].target);
      NeverTooDeep(t, rules[1..], p, inside, depth);
      NetworkNeverTooDeep(t, t[rules[0].target], p, inside, depth - 1);
    }
  }

  /**
    A network chain that lost its REJECT in a crash is repaired by the network's
    own ADD, if some policy selects it: the chain is again distinct jumps, at
    most one, followed by REJECT.
   */
  lemma OwnAddRepairs(env: Env, feed: Feed, s: State, name: string, namespace: string)
    requires Layered(s.table) && (namespace, Trim(name)) in feed(s.tick).networks
    requires LastSelecting(ListPolicies(env, feed(s.tick + 1), Trim(name), namespace)).Some?
    ensures var u, c := NetworkAdd(env, feed, s, name, namespace).0.table, NetName(env.md5, Trim(name), namespace);
            c in u && NetworkRules(u, u[c])
  {
    hide Kind, Cidr, Trim, NetName, PolName, Reports, NetworkAdd, SelectorsHaveChains, BaseWith, LayerOk;
    KindFacts();
    NetworkAddKeepsLastSelector(env, feed, s, name, namespace);
    var infos := ListPolicies(env, feed(s.tick + 1), Trim(name), namespace);
    if NetworkAdd(env, feed, s, name, namespace).1 { LastHasChain(env.md5, s.table, namespace, infos); }
  }

  lemma {:induction false} LastHasChain(md5: string -> Digest, t: Table, namespace: string, infos: seq<PolicyInfo>)
    requires LastSelecting(infos).Some? && SelectorsHaveChains(md5, t, namespace, infos)
    ensures PolName(md5, LastSelecting(infos).value.name, namespace) in t
  {
    hide PolName, SelectorsHaveChains;
    SelectorsHaveChainsSnoc(md5, t, namespace, infos);
    if Last(infos).networks.None? { LastHasChain(md5, t, namespace, Init(infos)); }
  }
}
