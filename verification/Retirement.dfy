/**
  What taking a policy or a network out of service leaves behind: exact
  results of policy DELETE, of the sweep after an empty policy UPDATE, and of
  logical network DELETE.
 */
module Retirement {
  import opened Options
  import opened Sequences
  import opened Text
  import opened Rules
  import opened Tables
  import opened Invariant
  import opened Preservation
  import opened Pairing
  import opened Removal
  import opened Handlers
  import opened Safety
  import opened PolicyListing

  // ---------- Network chains that lose a policy ----------

  function WithoutAll(rules: seq<Rule>, dead: set<string>): seq<Rule> {
    if rules == [] then []
    else if rules[0].target in dead then WithoutAll(rules[1..], dead)
    else [rules[0]] + WithoutAll(rules[1..], dead)
  }

  /** Chains of the set that have no jump to another policy, and so go away with this one. */
  function Dead(t: Table, met: set<string>, p: string): set<string> {
    set c | c in met && c in t && !OtherJump(t[c], p)
  }

  /**
    The table after the network chains in `met` lost their jumps to `p`: those
    with another policy keep everything else in order, the others are gone
    together with the base rules that lead to them.
   */
  function Released(t: Table, met: set<string>, p: string): Table
    requires BASE in t
  {
    var dead := Dead(t, met, p);
    map c | c in t && c !in dead ::
      if c == BASE then WithoutAll(t[BASE], dead)
      else if c in met then Without(t[c], p)
      else t[c]
  }

  lemma {:induction false} WithoutAllStep(rules: seq<Rule>, dead: set<string>, c: string)
    ensures Without(WithoutAll(rules, dead), c) == WithoutAll(rules, dead + {c})
  {
    if rules != [] { WithoutAllStep(rules[1..], dead, c); }
  }

  lemma {:induction false} WithoutAllMembers(rules: seq<Rule>, dead: set<string>)
    ensures forall r :: r in WithoutAll(rules, dead) <==> r in rules && r.target !in dead
  {
    if rules != [] {
      WithoutAllMembers(rules[1..], dead);
      assert forall r :: r in rules <==> r == rules[0] || r in rules[1..];
    }
  }

  lemma {:induction false} WithoutAllNone(rules: seq<Rule>)
    ensures WithoutAll(rules, {}) == rules
  {
    if rules != [] { WithoutAllNone(rules[1..]); }
  }

  lemma OtherJumpSurvives(rules: seq<Rule>, p: string)
    ensures OtherJump(Without(rules, p), p) <==> OtherJump(rules, p)
    ensures Without(Without(rules, p), p) == Without(rules, p)
  {
    hide Kind;
    WithoutMembers(rules, p);
    WithoutAbsent(Without(rules, p), p);
    if OtherJump(rules, p) {
      var i :| 0 <= i < |rules| && rules[i].target != p && IsPol(rules[i].target);
      assert rules[i] in Without(rules, p);
    }
  }

  lemma ReleasedNone(t: Table, p: string)
    requires BASE in t
    ensures Released(t, {}, p) == t
  {
    assert Dead(t, {}, p) == {};
    WithoutAllNone(t[BASE]);
  }

  /** One more network chain, seen before or not, there or not. */
  lemma ReleaseStep(t: Table, met: set<string>, c: string, p: string, subnetOf: string -> string)
    requires BASE in t && BASE !in met && Inv(Released(t, met, p), subnetOf) && IsNet(c) && IsPol(p)
    ensures RemoveJump(Released(t, met, p), c, p).0 == Released(t, met + {c}, p)
    ensures Inv(Released(t, met + {c}, p), subnetOf)
  {
    hide Kind, Contains, Line, Header, OtherJump, RemoveJump, Inv, WithoutAll, Without;
    KindFacts();
    var t1, t2 := Released(t, met, p), Released(t, met + {c}, p);
    var dead, dead2 := Dead(t, met, p), Dead(t, met + {c}, p);
    if c in t1 {
      assert BASE in t1;
      RemoveJumpExact(t1, c, p, subnetOf);
      OtherJumpSurvives(t[c], p);
      assert OtherJump(t1[c], p) <==> OtherJump(t[c], p);
      WithoutAllStep(t[BASE], dead, c);
      if OtherJump(t[c], p) {
        assert dead2 == dead;
        assert Without(t1[c], p) == Without(t[c], p);
      } else {
        assert dead2 == dead + {c};
      }
      assert DropJump(t1, c, p) == t2;
    } else {
      assert RemoveJump(t1, c, p).0 == t1 by { RemoveJumpMissing(t1, c, p); }
      assert dead2 == dead;
      assert t1 == t2;
    }
  }

  lemma RemoveJumpMissing(t: Table, c: string, p: string)
    requires c !in t
    ensures RemoveJump(t, c, p) == (t, Fail(1))
  {
  }

  /** What `Released` means, chain by chain. */
  lemma ReleasedMeans(t: Table, met: set<string>, p: string)
    requires Shape(t) && IsPol(p) && BASE !in met
    ensures forall c :: c in met && c in t && IsNet(c) ==>
              (c in Released(t, met, p) <==> OtherJump(t[c], p)) &&
              (OtherJump(t[c], p) ==> Released(t, met, p)[c] == Without(t[c], p))
    ensures forall c :: c in t && c !in met && c != BASE ==>
              c in Released(t, met, p) && Released(t, met, p)[c] == t[c]
    ensures forall c, r :: c in met && c in Released(t, met, p) && r in Released(t, met, p)[c] ==> r.target != p
    ensures forall r :: r in Released(t, met, p)[BASE] <==> r in t[BASE] && r.target in Released(t, met, p)
  {
    hide Kind, OtherJump, WithoutAll, Without;
    KindFacts();
    var dead := Dead(t, met, p);
    WithoutAllMembers(t[BASE], dead);
    assert ChainOk(t, BASE);
    forall c | c in t ensures forall r :: r in Without(t[c], p) <==> r in t[c] && r.target != p {
      WithoutMembers(t[c], p);
    }
    assert forall r :: r in t[BASE] ==> BaseRule(t, r);
  }

  // ---------- Policy UPDATE with no selectors ----------

  function Targets(rules: seq<Rule>): set<string> {
    set i | 0 <= i < |rules| :: rules[i].target
  }

  lemma {:induction false} SweepRulesExact(t: Table, rules: seq<Rule>, p: string, subnetOf: string -> string)
    requires Inv(t, subnetOf) && IsPol(p) && forall r :: r in rules ==> IsNet(r.target)
    ensures SweepRules(t, rules, p) == (Released(t, Targets(rules), p), Targets(rules))
    ensures Inv(Released(t, Targets(rules), p), subnetOf)
  {
    hide Kind, Inv, Released, RemoveJump;
    KindFacts();
    assert BASE in t by { assert Inv(t, subnetOf) ==> BASE in t by { InvHasBase(t, subnetOf); } }
    if rules == [] {
      ReleasedNone(t, p);
      assert Targets(rules) == {};
    } else {
      var before, c := Init(rules), Last(rules).target;
      assert Last(rules) in rules;
      SweepRulesExact(t, before, p, subnetOf);
      assert Targets(rules) == Targets(before) + {c};
      ReleaseStep(t, Targets(before), c, p, subnetOf);
      if c in Targets(before) {
        assert Targets(before) + {c} == Targets(before);
      }
    }
  }

  lemma InvHasBase(t: Table, subnetOf: string -> string)
    ensures Inv(t, subnetOf) ==> BASE in t
  {
  }

  /**
    The sweep.  Although the base chain shrinks while an old listing of it is
    walked, afterwards no network chain that the base chain leads to jumps to
    the policy, and the chains that survive are exactly those with a jump to
    another policy.
   */
  lemma EmptyUpdateSweeps(env: Env, feed: Feed, s: State, name: string, namespace: string, subnetOf: string -> string)
    requires Inv(s.table, subnetOf)
    requires FindPolicy(feed(s.tick).policies, name, namespace).Some?
    requires Parse(env, FindPolicy(feed(s.tick).policies, name, namespace).value.annotation) == Some(map[])
    ensures var p := PolName(env.md5, name, namespace);
            var t := ClearChain(s.table, p);
            PolicyUpdate(env, feed, s, name, namespace) == (State(Released(t, Targets(t[BASE]), p), s.tick + 1), true)
    ensures var t' := PolicyUpdate(env, feed, s, name, namespace).0.table;
            Inv(t', subnetOf) && forall b, r :: b in t'[BASE] && r in t'[b.target] ==>
              r.target != PolName(env.md5, name, namespace)
  {
    hide Kind, Inv, Released, SweepRules, SweepLines, Parse, FindPolicy, Listing, Targets;
    var p := PolName(env.md5, name, namespace);
    var t := ClearChain(s.table, p);
    KindFacts();
    ClearPolicyKeepsInv(s.table, p, subnetOf);
    InvHasBase(t, subnetOf);
    BaseTargets(t, subnetOf);
    SweepIsSweepRules(t, p);
    SweepRulesExact(t, t[BASE], p, subnetOf);
    ReleasedMeans(t, Targets(t[BASE]), p);
    var t' := Released(t, Targets(t[BASE]), p);
    InvHasBase(t', subnetOf);
    BaseTargets(t', subnetOf);
  }

  lemma BaseTargets(t: Table, subnetOf: string -> string)
    requires Inv(t, subnetOf)
    ensures Shape(t) && forall r :: r in t[BASE] ==> IsNet(r.target) && r.target in t && r.target in Targets(t[BASE])
    ensures BASE !in Targets(t[BASE])
  {
    hide Kind;
    KindFacts();
    assert ChainOk(t, BASE);
  }

  // ---------- Policy DELETE ----------

  /** The chains of the networks that the keys name. */
  function NamedChains(md5: string -> Digest, keys: seq<string>, namespace: string): set<string> {
    set i | 0 <= i < |keys| :: NetName(md5, Trim(keys[i]), namespace)
  }

  lemma {:induction false} RemoveJumpsExact(env: Env, t: Table, namespace: string, p: string, keys: seq<string>,
                                            subnetOf: string -> string)
    requires Inv(t, subnetOf) && IsPol(p)
    ensures RemoveJumps(env, t, namespace, p, keys) == Released(t, NamedChains(env.md5, keys, namespace), p)
    ensures Inv(Released(t, NamedChains(env.md5, keys, namespace), p), subnetOf)
  {
    hide Kind, Inv, Released, RemoveJump, Trim;
    KindFacts();
    InvHasBase(t, subnetOf);
    if keys == [] {
      ReleasedNone(t, p);
      assert NamedChains(env.md5, keys, namespace) == {};
    } else {
      var before, c := Init(keys), NetName(env.md5, Trim(Last(keys)), namespace);
      RemoveJumpsExact(env, t, namespace, p, before, subnetOf);
      assert NamedChains(env.md5, keys, namespace) == NamedChains(env.md5, before, namespace) + {c};
      ReleaseStep(t, NamedChains(env.md5, before, namespace), c, p, subnetOf);
    }
  }

  /** Every network chain that jumps to the policy is among the given ones. */
  ghost predicate AllNamed(t: Table, p: string, met: set<string>) {
    forall c, r :: c in t && IsNet(c) && r in t[c] && r.target == p ==> c in met
  }

  /** The chains of the networks that an annotation names; one that does not decode names none. */
  function ChainsNamedBy(env: Env, annotation: string, namespace: string): set<string> {
    match Parse(env, annotation)
    case None => {}
    case Some(networks) => set k | k in networks :: NetName(env.md5, Trim(k), namespace)
  }

  lemma NamedByKeys(env: Env, annotation: string, namespace: string, keys: seq<string>)
    requires Parse(env, annotation).Some? && Enumerates(keys, Parse(env, annotation).value.Keys)
    ensures NamedChains(env.md5, keys, namespace) == ChainsNamedBy(env, annotation, namespace)
  {
    hide Parse, NetName, Trim;
    var networks := Parse(env, annotation).value;
    forall i | 0 <= i < |keys|
      ensures NetName(env.md5, Trim(keys[i]), namespace) in ChainsNamedBy(env, annotation, namespace)
    {
      assert keys[i] in networks;
    }
    forall k | k in networks
      ensures NetName(env.md5, Trim(k), namespace) in NamedChains(env.md5, keys, namespace)
    {
      assert k in keys;
      var i :| 0 <= i < |keys| && keys[i] == k;
    }
  }

  /** Policy DELETE of a decodable annotation, by the chains that it names. */
  lemma PolicyDeleteReleases(env: Env, feed: Feed, s: State, name: string, namespace: string, annotation: string,
                             subnetOf: string -> string)
    requires Inv(s.table, subnetOf) && ValidOrder(feed(s.tick).order) && Parse(env, annotation).Some?
    ensures var p, met := PolName(env.md5, name, namespace), ChainsNamedBy(env, annotation, namespace);
            var (s', ok) := PolicyDelete(env, feed, s, name, namespace, annotation);
            && Inv(s'.table, subnetOf) && s'.tick == s.tick
            && (ok <==> AllNamed(s.table, p, met))
            && (ok ==> p !in s'.table && !Referenced(s'.table, p))
            && (!ok ==> p in s'.table && s'.table[p] == [])
            && (forall q :: q != p ==> (q in s'.table <==> q in Released(s.table, met, p)))
            && (forall q :: q != p && q in s'.table ==> s'.table[q] == Released(s.table, met, p)[q])
            && (forall q :: q != p && IsPol(q) ==>
                (q in s'.table <==> q in s.table) && (q in s.table ==> s'.table[q] == s.table[q]))
  {
    hide Kind, Inv, Parse, NamedChains, ChainsNamedBy, Released, OtherJump;
    KindFacts();
    InvHasBase(s.table, subnetOf);
    var p := PolName(env.md5, name, namespace);
    var keys := feed(s.tick).order(Parse(env, annotation).value.Keys);
    var met := NamedChains(env.md5, keys, namespace);
    NamedByKeys(env, annotation, namespace, keys);
    RemoveJumpsExact(env, s.table, namespace, p, keys, subnetOf);
    var t1 := Released(s.table, met, p);
    FlushDeletePolicyExact(t1, p, subnetOf);
    ReferencedAfterRelease(s.table, env.md5, keys, namespace, p, subnetOf);
    NamedAreNets(env.md5, keys, namespace);
    ReleasedKeepsPolicies(s.table, met, p, subnetOf);
    ReferencedIsMembership(t1 - {p}, p);
    ReferencedIsMembership(t1, p);
  }

  /**
    Policy DELETE, for every annotation.  It succeeds iff the annotation decodes
    and names every network chain that jumps to the policy.  Then the policy's
    chain and all mentions of it are gone.  An annotation that does not decode
    leaves everything as it was; one that names too little leaves the policy's
    chain there, empty.  No other policy chain ever changes.
   */
  lemma PolicyDeleteExact(env: Env, feed: Feed, s: State, name: string, namespace: string, annotation: string,
                          subnetOf: string -> string)
    requires Inv(s.table, subnetOf) && ValidOrder(feed(s.tick).order)
    ensures var p, met := PolName(env.md5, name, namespace), ChainsNamedBy(env, annotation, namespace);
            var (s', ok) := PolicyDelete(env, feed, s, name, namespace, annotation);
            && BASE in s.table && Inv(s'.table, subnetOf)
            && (ok <==> Parse(env, annotation).Some? && AllNamed(s.table, p, met))
            && (ok ==> p !in s'.table && !Referenced(s'.table, p))
            && (Parse(env, annotation).None? ==> s' == s)
            && (Parse(env, annotation).Some? && !ok ==> p in s'.table && s'.table[p] == [])
            && (Parse(env, annotation).Some? ==>
                forall q :: q != p ==>
                  && (q in s'.table <==> q in Released(s.table, met, p))
                  && (q in s'.table ==> s'.table[q] == Released(s.table, met, p)[q]))
            && (forall q :: q != p && IsPol(q) ==>
                (q in s'.table <==> q in s.table) && (q in s.table ==> s'.table[q] == s.table[q]))
  {
    hide Kind, Inv, Parse, ChainsNamedBy, Released, AllNamed, RemoveJumps, FlushDelete;
    InvHasBase(s.table, subnetOf);
    if Parse(env, annotation).Some? {
      PolicyDeleteReleases(env, feed, s, name, namespace, annotation, subnetOf);
    }
  }

  /**
    Policy UPDATE and ADD succeed iff the policy is listed and its annotation
    decodes; when they fail no rule changes, so the jumps and peer rules of the
    policy's previous annotation stay in force.
   */
  lemma PolicyUpdateSucceedsIff(env: Env, feed: Feed, s: State, name: string, namespace: string,
                                subnetOf: string -> string)
    requires Inv(s.table, subnetOf)
    ensures var found := FindPolicy(feed(s.tick).policies, name, namespace);
            var (s', ok) := PolicyUpdate(env, feed, s, name, namespace);
            && (ok <==> found.Some? && Parse(env, found.value.annotation).Some?)
            && (ok <==> PolicyAdd(env, feed, s, name, namespace).1)
            && (!ok ==> s'.table == s.table && PolicyAdd(env, feed, s, name, namespace).0.table == s.table)
  {
    hide Kind, Parse, FindPolicy, Populate, SweepLines, Listing, Inv;
    KindFacts();
    InvHasBase(s.table, subnetOf);
  }

  /** On any table: an update that names no selector also needs the base chain, which it lists. */
  lemma PolicyUpdateNeeds(env: Env, feed: Feed, s: State, name: string, namespace: string)
    ensures var found := FindPolicy(feed(s.tick).policies, name, namespace);
            PolicyUpdate(env, feed, s, name, namespace).1 <==>
              && found.Some? && Parse(env, found.value.annotation).Some?
              && (Parse(env, found.value.annotation) == Some(map[]) ==> BASE in s.table)
  {
    hide Kind, Parse, FindPolicy, Populate, SweepLines, Listing;
    KindFacts();
  }

  lemma NamedAreNets(md5: string -> Digest, keys: seq<string>, namespace: string)
    ensures forall c :: c in NamedChains(md5, keys, namespace) ==> IsNet(c)
    ensures BASE !in NamedChains(md5, keys, namespace)
  {
    hide Kind;
    KindFacts();
  }

  lemma ReferencedIsMembership(t: Table, p: string)
    ensures Referenced(t, p) <==> exists d, r :: d in t && r in t[d] && r.target == p
  {
    if d, r :| d in t && r in t[d] && r.target == p {
      var i :| 0 <= i < |t[d]| && t[d][i] == r;
      assert t[d][i].target == p;
    }
    if Referenced(t, p) {
      var d :| d in t && exists i :: 0 <= i < |t[d]| && t[d][i].target == p;
      var i :| 0 <= i < |t[d]| && t[d][i].target == p;
      assert t[d][i] in t[d];
    }
  }

  lemma ReleasedKeepsPolicies(t: Table, met: set<string>, p: string, subnetOf: string -> string)
    requires Inv(t, subnetOf) && (forall c :: c in met ==> IsNet(c))
    ensures BASE in t
    ensures forall q :: IsPol(q) ==>
            (q in Released(t, met, p) <==> q in t) && (q in t ==> Released(t, met, p)[q] == t[q])
  {
    hide Kind, OtherJump;
    KindFacts();
  }

  /** Only network chains jump to policies. */
  lemma OnlyNetworksJump(t: Table, d: string, r: Rule, p: string)
    requires Shape(t) && d in t && r in t[d] && r.target == p && IsPol(p)
    ensures IsNet(d)
  {
    hide Kind;
    KindFacts();
    assert ChainOk(t, d);
  }

  lemma ReferencedAfterRelease(t: Table, md5: string -> Digest, keys: seq<string>, namespace: string, p: string,
                               subnetOf: string -> string)
    requires Inv(t, subnetOf) && IsPol(p)
    requires BASE in t && Inv(Released(t, NamedChains(md5, keys, namespace), p), subnetOf)
    ensures Referenced(Released(t, NamedChains(md5, keys, namespace), p), p) <==>
            !AllNamed(t, p, NamedChains(md5, keys, namespace))
  {
    hide Kind, NamedChains, OtherJump, Released;
    KindFacts();
    var met := NamedChains(md5, keys, namespace);
    var t1: Table := Released(t, met, p);
    NamedAreNets(md5, keys, namespace);
    ReleasedMeans(t, met, p);
    ReferencedIsMembership(t1, p);
    if !AllNamed(t, p, met) {
      var c, r :| c in t && IsNet(c) && r in t[c] && r.target == p && c !in met;
      assert c in t1 && t1[c] == t[c];
    }
    if Referenced(t1, p) {
      var d: string, r: Rule :| d in t1 && r in t1[d] && r.target == p;
      OnlyNetworksJump(t1, d, r, p);
      assert d !in met;
      ReleasedIsPart(t, met, p, d);
      assert t1[d] == t[d];
    }
  }

  lemma ReleasedIsPart(t: Table, met: set<string>, p: string, d: string)
    requires BASE in t && d in Released(t, met, p)
    ensures d in t
  {
    hide OtherJump;
  }

  // ---------- Logical network DELETE ----------

  /** The policy chains that the list reports as using the network as a peer only. */
  function PeerOnly(md5: string -> Digest, infos: seq<PolicyInfo>): set<string> {
    set i | 0 <= i < |infos| && infos[i].networks.None? :: PolName(md5, infos[i].name, infos[i].namespace)
  }

  predicate AnySelects(infos: seq<PolicyInfo>) {
    exists i :: 0 <= i < |infos| && infos[i].networks.Some?
  }

  /**
    The table without a network: its chain and base rules if some policy selects
    it, and both its rules in each peer-only chain.
   */
  function Unpeered(t: Table, chains: set<string>, drop: bool, c: string, subnet: string): Table
    requires BASE in t
  {
    map d | d in t && !(drop && d == c) ::
      if d == BASE then (if drop then Without(t[BASE], c) else t[BASE])
      else if d in chains then WithoutSubnet(t[d], subnet)
      else t[d]
  }

  lemma WithoutTwice(rules: seq<Rule>, c: string, subnet: string)
    ensures Without(Without(rules, c), c) == Without(rules, c)
    ensures WithoutSubnet(WithoutSubnet(rules, subnet), subnet) == WithoutSubnet(rules, subnet)
  {
    WithoutMembers(rules, c);
    WithoutAbsent(Without(rules, c), c);
    WithoutSubnetMembers(rules, subnet);
    WithoutSubnetAbsent(WithoutSubnet(rules, subnet), subnet);
  }

  lemma UnpeerNetwork(t: Table, chains: set<string>, drop: bool, c: string, subnet: string)
    requires BASE in t && c != BASE
    ensures DropNetwork(Unpeered(t, chains, drop, c, subnet), c) == Unpeered(t, chains, true, c, subnet)
  {
    hide Without, WithoutSubnet;
    WithoutTwice(t[BASE], c, subnet);
  }

  lemma UnpeerPolicy(t: Table, chains: set<string>, drop: bool, c: string, subnet: string, p: string)
    requires BASE in t && p != c && p != BASE
    ensures var t1 := Unpeered(t, chains, drop, c, subnet);
            Unpeered(t, chains + {p}, drop, c, subnet) == if p in t1 then t1[p := WithoutSubnet(t1[p], subnet)] else t1
  {
    hide Without, WithoutSubnet;
    if p in t { WithoutTwice(t[p], c, subnet); }
  }

  lemma UnpeerStep(env: Env, t: Table, chains: set<string>, drop: bool, name: string, namespace: string, subnet: string,
                   info: PolicyInfo, h: Hyp)
    requires BASE in t && h.paired && SubstringFree(h.universe) && h.universe(subnet)
    requires Safe(Unpeered(t, chains, drop, NetName(env.md5, name, namespace), subnet), h)
    ensures var c := NetName(env.md5, name, namespace);
            DeleteInfo(env, Unpeered(t, chains, drop, c, subnet), name, namespace, subnet, info) ==
            (Unpeered(t, chains + PeerOnly(env.md5, [info]), drop || info.networks.Some?, c, subnet), true)
  {
    hide Kind, Unpeered, WithoutSubnet, RemoveNetwork, DropTwo, SubstringFree, NetName, PolName;
    KindFacts();
    var c := NetName(env.md5, name, namespace);
    var t1 := Unpeered(t, chains, drop, c, subnet);
    match info.networks
    case Some(_) =>
      assert PeerOnly(env.md5, [info]) == {};
      assert chains + {} == chains;
      RemoveNetworkExact(t1, c, h.subnetOf);
      UnpeerNetwork(t, chains, drop, c, subnet);
    case None =>
      var p := PolName(env.md5, info.name, info.namespace);
      assert PeerOnly(env.md5, [info]) == {p} by { assert [info][0].networks.None?; }
      UnpeerPolicy(t, chains, drop, c, subnet, p);
      if p in t1 {
        assert ChainOk(t1, p);
        DropTwoIsWithoutSubnet(p, t1[p], subnet, h.universe);
      }
  }

  lemma {:induction false} DeleteInfosExact(env: Env, t: Table, name: string, namespace: string, subnet: string,
                                            infos: seq<PolicyInfo>, h: Hyp)
    requires Safe(t, h) && h.paired && SubstringFree(h.universe) && h.universe(subnet)
    ensures BASE in t && DeleteInfos(env, t, name, namespace, subnet, infos) ==
            (Unpeered(t, PeerOnly(env.md5, infos), AnySelects(infos), NetName(env.md5, name, namespace), subnet), true)
  {
    hide Kind, Unpeered, DeleteInfo, SubstringFree, NetName, PolName;
    KindFacts();
    var c := NetName(env.md5, name, namespace);
    if infos == [] {
      assert PeerOnly(env.md5, infos) == {};
      UnpeeredNothing(t, c, subnet);
    } else {
      var before, info := Init(infos), Last(infos);
      DeleteInfosExact(env, t, name, namespace, subnet, before, h);
      DeleteInfosSafe(env, t, name, namespace, subnet, before, h);
      var chains := PeerOnly(env.md5, before);
      PeerOnlyStep(env.md5, infos);
      UnpeerStep(env, t, chains, AnySelects(before), name, namespace, subnet, info, h);
      AnySelectsStep(infos);
    }
  }

  lemma PeerOnlyStep(md5: string -> Digest, infos: seq<PolicyInfo>)
    requires infos != []
    ensures PeerOnly(md5, infos) == PeerOnly(md5, Init(infos)) + PeerOnly(md5, [Last(infos)])
    ensures forall c :: c in PeerOnly(md5, infos) ==> IsPol(c)
    ensures forall c :: c in PeerOnly(md5, Init(infos)) ==> IsPol(c)
  {
    hide Kind, PolName;
    var a, b := PeerOnly(md5, Init(infos)), PeerOnly(md5, [Last(infos)]);
    forall c | c in PeerOnly(md5, infos) ensures c in a + b {
      var i :| 0 <= i < |infos| && infos[i].networks.None? && c == PolName(md5, infos[i].name, infos[i].namespace);
      if i < |infos| - 1 {
        assert Init(infos)[i] == infos[i];
      } else {
        assert [Last(infos)][0] == infos[i];
      }
    }
    forall c | c in a ensures c in PeerOnly(md5, infos) {
      var i :| 0 <= i < |Init(infos)| && Init(infos)[i].networks.None? &&
        c == PolName(md5, Init(infos)[i].name, Init(infos)[i].namespace);
      assert Init(infos)[i] == infos[i];
    }
    forall c | c in b ensures c in PeerOnly(md5, infos) {
      assert infos[|infos| - 1].networks.None?;
    }
  }

  lemma AnySelectsStep(infos: seq<PolicyInfo>)
    requires infos != []
    ensures AnySelects(infos) <==> AnySelects(Init(infos)) || Last(infos).networks.Some?
  {
    if AnySelects(Init(infos)) {
      var i :| 0 <= i < |Init(infos)| && Init(infos)[i].networks.Some?;
      assert infos[i].networks.Some?;
    }
    if AnySelects(infos) && Last(infos).networks.None? {
      var i :| 0 <= i < |infos| && infos[i].networks.Some?;
      assert Init(infos)[i].networks.Some?;
    }
  }

  lemma UnpeeredNothing(t: Table, c: string, subnet: string)
    requires BASE in t
    ensures Unpeered(t, {}, false, c, subnet) == t
  {
  }

  /**
    Logical network DELETE.  Each policy reported as peer-only loses exactly
    the two rules of the network's subnet, however often it is reported; the
    network's chain goes away iff a selecting policy is reported; nothing else
    changes and nothing fails.
   */
  lemma NetworkDeleteExact(env: Env, feed: Feed, s: State, name: string, namespace: string, subnet: string, h: Hyp)
    requires Safe(s.table, h) && h.paired && SubstringFree(h.universe) && h.universe(subnet)
    ensures var infos := ListPolicies(env, feed(s.tick), name, namespace);
            BASE in s.table && NetworkDelete(env, feed, s, name, namespace, subnet) ==
            (State(Unpeered(s.table, PeerOnly(env.md5, infos), AnySelects(infos), NetName(env.md5, name, namespace),
                            subnet), s.tick + 1), true)
  {
    hide ListPolicies, Safe, Unpeered, SubstringFree, NetName;
    DeleteInfosExact(env, s.table, name, namespace, subnet, ListPolicies(env, feed(s.tick), name, namespace), h);
  }

  // ---------- Logical network UPDATE ----------

  /** Logical network UPDATE never changes a rule: it succeeds iff there was nothing to replace. */
  lemma NetworkUpdateReplacesNothing(env: Env, feed: Feed, s: State, name: string, namespace: string,
                                     subnetOf: string -> string)
    requires Inv(s.table, subnetOf)
    ensures NetworkUpdate(env, feed, s, name, namespace).0.table == s.table
    ensures NetworkUpdate(env, feed, s, name, namespace).1 <==>
            ((namespace, name) in feed(s.tick).networks &&
             forall r :: r in s.table[BASE] ==> r.target != NetName(env.md5, name, namespace))
  {
    hide Kind, Contains, Line, Header, NetName, NetworkUpdate;
    KindFacts();
    NetworkUpdateIs(env, feed, s, name, namespace);
    var t, c := s.table, NetName(env.md5, name, namespace);
    assert ChainOk(t, BASE);
    BaseHeaderHoldsNoName(c);
    var lines := Listing(t, BASE);
    forall i | 0 <= i < |t[BASE]| ensures Contains(lines[i + 1], c) <==> t[BASE][i].target == c {
      assert BaseRule(t, t[BASE][i]);
      MentionsName(BASE, t[BASE][i], c);
      assert Mentions(BASE, t[BASE][i], c) <==> t[BASE][i].target == c;
    }
    if AnyContains(lines, c) {
      var i :| 0 <= i < |lines| && Contains(lines[i], c);
      assert i > 0 && lines[(i - 1) + 1] == lines[i] && t[BASE][i - 1] in t[BASE];
    } else {
      forall r: Rule | r in t[BASE] ensures r.target != c {
        var i :| 0 <= i < |t[BASE]| && t[BASE][i] == r;
        assert !Contains(lines[i + 1], c);
      }
    }
  }

  // ---------- A removal that fails ----------

  lemma {:induction false} PeersOnlySucceed(env: Env, t: Table, name: string, namespace: string, subnet: string,
                                            infos: seq<PolicyInfo>)
    requires forall i :: 0 <= i < |infos| ==> infos[i].networks.None?
    ensures var (u, ok) := DeleteInfos(env, t, name, namespace, subnet, infos);
            && ok && u.Keys == t.Keys
            && forall d :: d in t &&
                 (forall i :: 0 <= i < |infos| ==> PolName(env.md5, infos[i].name, infos[i].namespace) != d)
                 ==> u[d] == t[d]
  {
    hide DropTwo, PolName;
    if infos != [] {
      PeersOnlySucceed(env, t, name, namespace, subnet, Init(infos));
      assert forall i :: 0 <= i < |infos| - 1 ==> Init(infos)[i] == infos[i];
    }
  }

  /** With too many base rules a chain cannot be removed, whatever the other chains hold. */
  lemma BlockedRemoval(t: Table, u: Table, c: string)
    requires Shape(t) && IsNet(c) && c in t && Count(t[BASE], c) > 2
    requires c in u && BASE in u && u[BASE] == t[BASE]
    ensures var (v, e) := RemoveNetwork(u, c);
            && e.Fail? && c in v && v[c] == [] && forall d :: d in u && IsPol(d) ==> d in v && v[d] == u[d]
  {
    hide Kind, Contains, Mentions;
    KindFacts();
    BaseHeaderHoldsNoName(c);
    assert ChainOk(t, BASE);
    var base := DropTwo(BASE, t[BASE], c);
    DropFirstCount(t[BASE], c, 2);
    CountZero(base, c);
    var u1: Table := ClearChain(u[BASE := base], c);
    var i :| 0 <= i < |base| && base[i].target == c;
    assert u1[BASE][i].target == c;
    assert Referenced(u1, c);
  }

  /**
    The DELETE of a network to which more than two base rules lead stops at the
    first listed policy that selects it: it fails, the network's chain is empty,
    and the chains of policies that are not listed before that one keep their rules.
   */
  lemma DeleteStopsAtFailure(env: Env, feed: Feed, s: State, name: string, namespace: string, subnet: string, i: nat)
    requires var c := NetName(env.md5, name, namespace); Shape(s.table) && c in s.table && Count(s.table[BASE], c) > 2
    requires var infos := ListPolicies(env, feed(s.tick), name, namespace);
             && i < |infos| && infos[i].networks.Some? && forall j :: 0 <= j < i ==> infos[j].networks.None?
    ensures var (s', ok) := NetworkDelete(env, feed, s, name, namespace, subnet);
            var t, u, c := s.table, s'.table, NetName(env.md5, name, namespace);
            var infos := ListPolicies(env, feed(s.tick), name, namespace);
            && !ok && c in u && u[c] == []
            && forall d :: d in t && IsPol(d) &&
                 (forall j :: 0 <= j < i ==> PolName(env.md5, infos[j].name, infos[j].namespace) != d)
                 ==> d in u && u[d] == t[d]
  {
    hide Kind, ListPolicies, RemoveNetwork, NetName, PolName, Count, Shape;
    KindFacts();
    var infos, c := ListPolicies(env, feed(s.tick), name, namespace), NetName(env.md5, name, namespace);
    assert IsNet(c);
    PeersOnlySucceed(env, s.table, name, namespace, subnet, infos[..i]);
    var u := DeleteInfos(env, s.table, name, namespace, subnet, infos[..i]).0;
    assert BASE in s.table by { assert Shape(s.table); ShapeHasBase(s.table); }
    forall j | 0 <= j < i
      ensures IsPol(PolName(env.md5, infos[j].name, infos[j].namespace))
    {
    }
    assert u[BASE] == s.table[BASE] && u[c] == s.table[c];
    BlockedRemoval(s.table, u, c);
    Prefix(infos, i);
    DeleteInfosStops(env, s.table, name, namespace, subnet, infos, i + 1);
  }

  lemma ShapeHasBase(t: Table)
    requires Shape(t)
    ensures BASE in t
  {
  }
}
