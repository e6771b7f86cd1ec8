/**
  Safety over every run.  The controller may die in the middle of a handler, at
  any of the steps the handler is made of, and be started again: the table
  invariant holds all the same, after every handled key, every restart and at
  every point between two steps.
 */
module Runs {
  import opened Sequences
  import opened Text
  import opened Rules
  import opened Tables
  import opened Invariant
  import opened Preservation
  import opened Pairing
  import opened Handlers
  import opened Safety
  import opened Workers
  import opened HandlerSteps

  // ---------- Every step of a handler is safe ----------

  ghost predicate Keeps(op: Op, h: Hyp) {
    forall s: State :: Safe(s.table, h) ==> Safe(op(s).table, h)
  }

  ghost predicate AllKeep(ops: seq<Op>, h: Hyp) {
    forall i :: 0 <= i < |ops| ==> Keeps(ops[i], h)
  }

  lemma {:induction false} ApplyAllKeeps(ops: seq<Op>, s: State, h: Hyp)
    requires AllKeep(ops, h) && Safe(s.table, h)
    ensures Safe(ApplyAll(ops, s).table, h)
  {
    hide Safe;
    if ops != [] { ApplyAllKeeps(ops[1..], ops[0](s), h); }
  }

  lemma UnrolledKeep(body: (State, nat) -> State, n: nat, h: Hyp)
    requires forall s: State, i: nat :: i < n && Safe(s.table, h) ==> Safe(body(s, i).table, h)
    ensures AllKeep(Unrolled(body, n), h)
  {
    hide Safe;
  }

  lemma AppendKeep(a: seq<Op>, b: seq<Op>, h: Hyp)
    requires AllKeep(a, h) && AllKeep(b, h)
    ensures AllKeep(a + b, h)
  {
    hide Keeps;
  }

  lemma ReadsKeep(n: nat, h: Hyp)
    ensures AllKeep([Reads(n)], h)
  {
    hide Safe;
  }

  lemma ResetsKeep(chain: string, h: Hyp)
    requires IsPol(chain)
    ensures AllKeep([Resets(chain)], h)
  {
    hide Safe, Kind, ClearChain;
    forall s: State | Safe(s.table, h) ensures Safe(Resets(chain)(s).table, h) { ClearPolicySafe(s.table, chain, h); }
  }

  lemma PopulateStepsKeep(env: Env, feed: Feed, tick: nat, namespace: string, chain: string, networks: Networks, h: Hyp)
    requires FixedSubnets(env, feed, h) && IsPol(chain)
    ensures AllKeep(PopulateSteps(env, feed, tick, namespace, chain, networks), h)
  {
    hide Safe, Kind, FixedSubnets, PopulateKey, Unrolled, AllKeep;
    var keys := feed(tick).order(networks.Keys);
    var body := PopulateBody(env, feed, namespace, chain, networks, keys);
    forall s: State, i: nat | i < |keys| && Safe(s.table, h) ensures Safe(body(s, i).table, h) {
      PopulateKeySafe(env, feed, s, namespace, chain, networks, keys[i], h);
    }
    UnrolledKeep(body, |keys|, h);
  }

  lemma SweepStepsKeep(t: Table, chain: string, h: Hyp)
    requires Safe(t, h) && IsPol(chain)
    ensures BASE in t && AllKeep(Unrolled(SweepBody(t, Listing(t, BASE), chain), |Listing(t, BASE)|), h)
  {
    hide Safe, Kind, RemoveJump, Unrolled, AllKeep, Contains, SweepLines, Split, NetworkWord, Line, Header;
    SafeHasShape(t, h);
    var lines := Listing(t, BASE);
    var body := SweepBody(t, lines, chain);
    BaseHeaderHasNoPrefix();
    forall s: State, i: nat | i < |lines| && Safe(s.table, h) ensures Safe(body(s, i).table, h) {
      if 0 < i {
        var r := t[BASE][i - 1];
        assert lines[i] == Line(BASE, r);
        BaseRuleOf(t, r);
        BaseLineWord(t, r);
        RemoveJumpSafe(s.table, r.target, chain, h);
      }
    }
    UnrolledKeep(body, |lines|, h);
  }

  lemma PolicyStepsKeep(env: Env, feed: Feed, s: State, name: string, namespace: string, update: bool, h: Hyp)
    requires Safe(s.table, h) && FixedSubnets(env, feed, h)
    ensures AllKeep(PolicySteps(env, feed, s, name, namespace, update), h)
  {
    hide Safe, Kind, FixedSubnets, Unrolled, PopulateSteps, Parse, FindPolicy, PolName, Listing, SweepBody, ClearChain;
    hide AllKeep, Reads, Resets;
    ReadsKeep(1, h);
    var found := FindPolicy(feed(s.tick).policies, name, namespace);
    if found.Some? && Parse(env, found.value.annotation).Some? {
      var nets, chain := Parse(env, found.value.annotation).value, PolName(env.md5, name, namespace);
      ResetsKeep(chain, h);
      PopulateStepsKeep(env, feed, s.tick + 1, namespace, chain, nets, h);
      AppendKeep([Resets(chain)], PopulateSteps(env, feed, s.tick + 1, namespace, chain, nets), h);
      var t := ClearChain(s.table, chain);
      ClearPolicySafe(s.table, chain, h);
      SweepStepsKeep(t, chain, h);
      AppendKeep([Resets(chain)], Unrolled(SweepBody(t, Listing(t, BASE), chain), |Listing(t, BASE)|), h);
    }
  }

  lemma NetworkAddStepsKeep(env: Env, feed: Feed, s: State, name: string, namespace: string, h: Hyp)
    requires FixedSubnets(env, feed, h)
    ensures AllKeep(NetworkAddSteps(env, feed, s, name, namespace), h)
  {
    hide Safe, Kind, SubnetOk, Unrolled, ListPolicies, AddInfo, NetName, Cidr, Trim, Visited, AllKeep, Reads;
    ReadsKeep(1, h);
    var key := (namespace, Trim(name));
    if key in feed(s.tick).networks {
      var subnet := feed(s.tick).networks[key];
      var infos := ListPolicies(env, feed(s.tick + 1), Trim(name), namespace);
      var n := Visited(env, feed, State(s.table, s.tick + 2), Trim(name), namespace, subnet, infos);
      var body := AddInfoBody(env, feed, Trim(name), namespace, subnet, infos);
      forall u: State, i: nat | i < n && Safe(u.table, h) ensures Safe(body(u, i).table, h) {
        AddInfoSafe(env, feed, u, Trim(name), namespace, subnet, infos[i], h);
      }
      UnrolledKeep(body, n, h);
      ReadsKeep(2, h);
      AppendKeep([Reads(2)], Unrolled(body, n), h);
    }
  }

  lemma PolicyDeleteStepsKeep(env: Env, feed: Feed, s: State, name: string, namespace: string, annotation: string,
                              h: Hyp)
    ensures AllKeep(PolicyDeleteSteps(env, feed, s, name, namespace, annotation), h)
  {
    hide Safe, Kind, Unrolled, RemoveJump, FlushDelete, Parse, PolName, NetName, Trim;
    var nets := Parse(env, annotation);
    if nets.Some? {
      var chain := PolName(env.md5, name, namespace);
      var keys := feed(s.tick).order(nets.value.Keys);
      var body := RemoveJumpsBody(env, namespace, chain, keys);
      forall u: State, i: nat | i < |keys| && Safe(u.table, h) ensures Safe(body(u, i).table, h) {
        RemoveJumpSafe(u.table, NetName(env.md5, Trim(keys[i]), namespace), chain, h);
      }
      UnrolledKeep(body, |keys|, h);
      var last: Op := (u: State) => State(FlushDelete(u.table, chain).0, u.tick);
      forall u: State | Safe(u.table, h) ensures Safe(last(u).table, h) { FlushDeleteSafe(u.table, chain, h); }
      assert PolicyDeleteSteps(env, feed, s, name, namespace, annotation) == Unrolled(body, |keys|) + [last];
    }
  }

  lemma NetworkDeleteStepsKeep(env: Env, feed: Feed, s: State, name: string, namespace: string, subnet: string, h: Hyp)
    requires h.paired ==> SubstringFree(h.universe) && h.universe(subnet)
    ensures AllKeep(NetworkDeleteSteps(env, feed, s, name, namespace, subnet), h)
  {
    hide Safe, SubstringFree, Unrolled, ListPolicies, DeleteInfo, Retired, AllKeep, Reads;
    var infos := ListPolicies(env, feed(s.tick), name, namespace);
    var n := Retired(env, s.table, name, namespace, subnet, infos);
    var body := DeleteInfoBody(env, name, namespace, subnet, infos);
    forall u: State, i: nat | i < n && Safe(u.table, h) ensures Safe(body(u, i).table, h) {
      DeleteInfoSafe(env, u.table, name, namespace, subnet, infos[i], h);
    }
    UnrolledKeep(body, n, h);
    ReadsKeep(1, h);
    AppendKeep([Reads(1)], Unrolled(body, n), h);
  }

  lemma StepsKeep(env: Env, feed: Feed, s: State, e: Event, h: Hyp)
    requires Safe(s.table, h) && FixedSubnets(env, feed, h) && EventOk(h, e)
    ensures AllKeep(Steps(env, feed, s, e), h)
  {
    hide Safe, FixedSubnets, PolicySteps, PolicyDeleteSteps, NetworkAddSteps, NetworkDeleteSteps, Reads, SubstringFree;
    match e
    case PolicyAdded(name, namespace) => PolicyStepsKeep(env, feed, s, name, namespace, false, h);
    case PolicyUpdated(name, namespace, _) => PolicyStepsKeep(env, feed, s, name, namespace, true, h);
    case PolicyDeleted(name, namespace, annotation) =>
      PolicyDeleteStepsKeep(env, feed, s, name, namespace, annotation, h);
    case NetworkAdded(name, namespace) => NetworkAddStepsKeep(env, feed, s, name, namespace, h);
    case NetworkUpdated(_, _) => ReadsKeep(1, h);
    case NetworkDeleted(name, namespace, subnet) => NetworkDeleteStepsKeep(env, feed, s, name, namespace, subnet, h);
    case Unknown =>
  }

  lemma SyncStepsKeep(env: Env, feed: Feed, s: State, key: string, h: Hyp)
    requires Safe(s.table, h) && FixedSubnets(env, feed, h) && KeyOk(env, h, key)
    ensures AllKeep(SyncSteps(env, feed)(key, s), h)
  {
    hide Safe, FixedSubnets, EventOk, Steps, EventOf, Keeps;
    if env.decode(key).Some? { StepsKeep(env, feed, s, EventOf(env.decode(key).value), h); }
  }

  // ---------- Runs ----------

  /** A key is handled up to, not including, the n-th step of its handler. */
  function Partly(env: Env, feed: Feed, s: State, key: string, n: nat): State {
    var steps := SyncSteps(env, feed)(key, s);
    ApplyAll(if n < |steps| then steps[..n] else steps, s)
  }

  lemma PartlySafe(env: Env, feed: Feed, s: State, key: string, n: nat, h: Hyp)
    requires Safe(s.table, h) && FixedSubnets(env, feed, h) && KeyOk(env, h, key)
    ensures Safe(Partly(env, feed, s, key, n).table, h)
  {
    hide Safe, FixedSubnets, KeyOk, SyncSteps, Keeps, ApplyAll;
    var steps := SyncSteps(env, feed)(key, s);
    SyncStepsKeep(env, feed, s, key, h);
    ApplyAllKeeps(if n < |steps| then steps[..n] else steps, s, h);
  }

  /** A handler that gets past its last step has done its work. */
  lemma PartlyIsAll(env: Env, feed: Feed, s: State, key: string, n: nat)
    requires n >= |SyncSteps(env, feed)(key, s)|
    ensures Partly(env, feed, s, key, n) == Sync(env, feed, s, key).0
  {
    hide Sync;
    HandlersImplement(env, feed);
    assert ApplyAll(SyncSteps(env, feed)(key, s), s) == Sync(env, feed, s, key).0;
  }

  /**
    The controller is started again, handles a key, or dies in the middle of
    handling one, after `n` steps, and is started again.
   */
  datatype RunStep = Start | Work(key: string) | Crash(key: string, n: nat)

  function Restarted(s: State): State {
    State(Restart(s.table).0, s.tick)
  }

  function Run(env: Env, feed: Feed, s: State, steps: seq<RunStep>): State {
    if steps == [] then s
    else
      var s1 := Run(env, feed, s, Init(steps));
      match Last(steps)
      case Start => Restarted(s1)
      case Work(key) => Sync(env, feed, s1, key).0
      case Crash(key, n) => Restarted(Partly(env, feed, s1, key, n))
  }

  ghost predicate StepsOk(env: Env, h: Hyp, steps: seq<RunStep>) {
    forall i :: 0 <= i < |steps| && !steps[i].Start? ==> KeyOk(env, h, steps[i].key)
  }

  lemma RestartedSafe(s: State, h: Hyp)
    requires Safe(s.table, h) && FORWARD in h.foreign && Jump(BASE) in h.foreign[FORWARD]
    ensures Safe(Restarted(s).table, h)
  {
    hide Kind, Inv, Restart;
    KindFacts();
    InvIsStartable(s.table, h.subnetOf);
    RestartEstablishesInv(s.table, h.subnetOf);
    RestartAgain(s.table);
  }

  lemma FirstStartSafe(t: Table, h: Hyp)
    requires Startable(t) && (h.paired ==> Paired(t, h.universe)) && h.foreign == Restart(t).0
    ensures Restart(t).1 == Done && Safe(Restart(t).0, h)
    ensures FORWARD in h.foreign && Jump(BASE) in h.foreign[FORWARD]
  {
    hide Kind, Inv, Restart;
    KindFacts();
    RestartEstablishesInv(t, h.subnetOf);
    if h.paired { RestartKeepsPairs(t, h.universe); }
  }

  /**
    Safety.  On a node whose table has no dangling or foreign use of Genie's
    chain names, after the first start every state of every run satisfies the
    invariant, also halfway through a handler; packets still reach the base
    chain, and the chains of other software are as the first start left them.
    With `paired`, peer rules also stay in pairs.
   */
  lemma {:induction false} EveryRunIsSafe(env: Env, feed: Feed, t: Table, tick: nat, steps: seq<RunStep>, h: Hyp)
    requires Startable(t) && (h.paired ==> Paired(t, h.universe)) && h.foreign == Restart(t).0
    requires FixedSubnets(env, feed, h) && StepsOk(env, h, steps)
    ensures Restart(t).1 == Done
    ensures Safe(Run(env, feed, State(Restart(t).0, tick), steps).table, h)
    ensures FORWARD in h.foreign && Jump(BASE) in h.foreign[FORWARD]
    ensures forall key, n: nat :: KeyOk(env, h, key) ==>
              Safe(Partly(env, feed, Run(env, feed, State(Restart(t).0, tick), steps), key, n).table, h)
  {
    hide Startable, Restart, Restarted, Sync, Partly, FixedSubnets, Safe, KeyOk, Paired;
    FirstStartSafe(t, h);
    var s0 := State(Restart(t).0, tick);
    if steps != [] {
      EveryRunIsSafe(env, feed, t, tick, Init(steps), h);
      var s1 := Run(env, feed, s0, Init(steps));
      assert steps[|steps| - 1] == Last(steps);
      match Last(steps)
      case Start => RestartedSafe(s1, h);
      case Work(key) => SyncSafe(env, feed, s1, key, h);
      case Crash(key, n) =>
        PartlySafe(env, feed, s1, key, n, h);
        RestartedSafe(Partly(env, feed, s1, key, n), h);
    }
    forall key, n: nat | KeyOk(env, h, key)
      ensures Safe(Partly(env, feed, Run(env, feed, s0, steps), key, n).table, h)
    {
      PartlySafe(env, feed, Run(env, feed, s0, steps), key, n, h);
    }
  }

  // ---------- Interleaved workers ----------

  /** The table is safe now, and will be after each step that the holder of the mutex has still to take. */
  ghost predicate Calm(env: Env, m: Machine, h: Hyp) {
    && Safe(m.shared.table, h)
    && (forall key :: key in m.queue || key in m.dirty ==> KeyOk(env, h, key))
    && (forall w :: 0 <= w < |m.workers| && !m.workers[w].Idle? ==> KeyOk(env, h, m.workers[w].key))
    && forall w :: 0 <= w < |m.workers| && m.workers[w].Busy? ==> AllKeep(m.workers[w].rest, h)
  }

  lemma NextIsCalm(env: Env, feed: Feed, m: Machine, move: Move, h: Hyp)
    requires Calm(env, m, h) && FixedSubnets(env, feed, h) && (move.Add? ==> KeyOk(env, h, move.key))
    ensures Calm(env, Next(SyncSteps(env, feed), m, move), h)
  {
    hide Safe, FixedSubnets, KeyOk, SyncSteps, AllKeep;
    match move
    case Add(_) =>
    case Take(w) =>
    case Unlock(w) =>
    case Finish(w) =>
    case Lock(w) =>
      if w < |m.workers| && m.workers[w].Waiting? { SyncStepsKeep(env, feed, m.shared, m.workers[w].key, h); }
    case Step(w) =>
      if w < |m.workers| && m.workers[w].Busy? && m.workers[w].rest != [] {
        RestKeeps(m.workers[w].rest, m.shared, h);
      }
  }

  lemma RestKeeps(ops: seq<Op>, s: State, h: Hyp)
    requires ops != [] && AllKeep(ops, h) && Safe(s.table, h)
    ensures AllKeep(ops[1..], h) && Safe(ops[0](s).table, h)
  {
    hide Safe;
  }

  /** At every instant of every interleaving, also while a worker is inside a handler, the table is safe. */
  lemma {:induction false} EveryInstantIsSafe(env: Env, feed: Feed, n: nat, s: State, moves: seq<Move>, h: Hyp)
    requires Safe(s.table, h) && FixedSubnets(env, feed, h)
    requires forall i :: 0 <= i < |moves| && moves[i].Add? ==> KeyOk(env, h, moves[i].key)
    ensures Calm(env, Moves(SyncSteps(env, feed), Initial(n, s), moves), h)
    ensures Safe(Moves(SyncSteps(env, feed), Initial(n, s), moves).shared.table, h)
  {
    hide Safe, FixedSubnets, KeyOk, SyncSteps, Next, AllKeep;
    if moves != [] {
      EveryInstantIsSafe(env, feed, n, s, Init(moves), h);
      assert moves[|moves| - 1] == Last(moves);
      NextIsCalm(env, feed, Moves(SyncSteps(env, feed), Initial(n, s), Init(moves)), Last(moves), h);
    }
  }
}
