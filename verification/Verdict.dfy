/**
  What the rule graph means for a packet: chain evaluation as the kernel does
  it, and the policy statement it amounts to on an invariant table.
 */
module Verdict {
  import opened Sequences
  import opened Rules
  import opened Tables
  import opened Invariant

  /** An IPv4 address. */
  type Address = bv32

  datatype Packet = Packet(src: Address, dst: Address)

  /**
    `Passed`: no rule decided, evaluation goes on in the calling chain.
    `TooDeep`: the bound on nested jumps was hit.
   */
  datatype Outcome = Accepted | Rejected | Passed | TooDeep

  /** Which addresses lie in which subnet. */
  type Subnets = (string, Address) -> bool

  predicate Matches(m: Match, p: Packet, inside: Subnets) {
    match m
    case Any => true
    case Src(s) => inside(s, p.src)
    case Dst(s) => inside(s, p.dst)
  }

  /** Evaluates the rules of a chain in order; a jump evaluates the target chain with one level less. */
  function Eval(t: Table, rules: seq<Rule>, p: Packet, inside: Subnets, depth: nat): Outcome
    decreases depth, |rules|
  {
    if rules == [] then Passed
    else if !Matches(rules[0].on, p, inside) then Eval(t, rules[1..], p, inside, depth)
    else if rules[0].target == ACCEPT then Accepted
    else if rules[0].target == REJECT then Rejected
    else if rules[0].target !in t || depth == 0 then TooDeep
    else
      var o := Eval(t, t[rules[0].target], p, inside, depth - 1);
      if o == Passed then Eval(t, rules[1..], p, inside, depth) else o
  }

  // ---------- The policy statement ----------

  ghost predicate SomePeerMatches(rules: seq<Rule>, p: Packet, inside: Subnets) {
    exists r :: r in rules && Matches(r.on, p, inside)
  }

  /** Some jump among a network chain's rules leads to a policy that has a peer rule for the packet. */
  ghost predicate Admitted(t: Table, rules: seq<Rule>, p: Packet, inside: Subnets) {
    exists j :: j in rules && j.target in t && IsPol(j.target) && SomePeerMatches(t[j.target], p, inside)
  }

  /** The index of the first rule that matches, or the length. */
  function First(rules: seq<Rule>, p: Packet, inside: Subnets): (i: nat)
    ensures i <= |rules| && forall k :: 0 <= k < i ==> !Matches(rules[k].on, p, inside)
    ensures i < |rules| ==> Matches(rules[i].on, p, inside)
  {
    if rules == [] || Matches(rules[0].on, p, inside) then 0 else 1 + First(rules[1..], p, inside)
  }

  /** What the rule at index `i` of the base chain decides. */
  ghost function Ruling(t: Table, rules: seq<Rule>, i: nat, p: Packet, inside: Subnets): Outcome {
    if i >= |rules| then Passed
    else if rules[i].target in t && Admitted(t, t[rules[i].target], p, inside) then Accepted
    else Rejected
  }

  // ---------- Evaluation meets the statement ----------

  lemma {:induction false} PolicyChainMeaning(t: Table, rules: seq<Rule>, p: Packet, inside: Subnets, depth: nat)
    requires forall r :: r in rules ==> PeerRule(r)
    ensures Eval(t, rules, p, inside, depth) == if SomePeerMatches(rules, p, inside) then Accepted else Passed
    decreases |rules|
  {
    if rules != [] {
      PolicyChainMeaning(t, rules[1..], p, inside, depth);
      assert PeerRule(rules[0]);
      assert forall r :: r in rules <==> r == rules[0] || r in rules[1..];
    }
  }

  lemma {:induction false} NetworkChainMeaning(t: Table, rules: seq<Rule>, p: Packet, inside: Subnets, depth: nat)
    requires Shape(t) && depth > 0
    requires rules != [] && rules[|rules| - 1] == REJECT_ALL && forall r :: r in rules ==>
             r == REJECT_ALL || PolicyJump(t, r)
    requires forall i :: 0 <= i < |rules| - 1 ==> rules[i] != REJECT_ALL
    ensures Eval(t, rules, p, inside, depth) == if Admitted(t, rules, p, inside) then Accepted else Rejected
    decreases |rules|
  {
    hide Kind;
    KindFacts();
    assert forall r :: r in rules <==> r == rules[0] || r in rules[1..];
    if |rules| == 1 {
      assert rules[0] == REJECT_ALL;
    } else {
      assert PolicyJump(t, rules[0]) && ChainOk(t, rules[0].target);
      PolicyChainMeaning(t, t[rules[0].target], p, inside, depth - 1);
      NetworkChainMeaning(t, rules[1..], p, inside, depth);
    }
  }

  lemma {:induction false} BaseChainMeaning(t: Table, rules: seq<Rule>, p: Packet, inside: Subnets, depth: nat)
    requires Shape(t) && depth >= 2
    requires forall r :: r in rules ==> BaseRule(t, r)
    ensures var i := First(rules, p, inside);
            Eval(t, rules, p, inside, depth) == Ruling(t, rules, i, p, inside)
    decreases |rules|
  {
    hide Kind;
    KindFacts();
    if rules != [] {
      assert BaseRule(t, rules[0]);
      if Matches(rules[0].on, p, inside) {
        var c := rules[0].target;
        assert ChainOk(t, c);
        NetworkChainMeaning(t, t[c], p, inside, depth - 1);
      } else {
        BaseChainMeaning(t, rules[1..], p, inside, depth);
      }
    }
  }

  /**
    The meaning of the rule graph.  Two nested jumps always suffice, so no
    packet loops; a packet no base rule matches passes; otherwise the first
    matching base rule's network decides, and it accepts exactly the packets
    that one of its policies has a peer rule for.
   */
  lemma GraphMeaning(t: Table, p: Packet, inside: Subnets, depth: nat)
    requires Shape(t) && depth >= 2
    ensures Eval(t, t[BASE], p, inside, depth) == Ruling(t, t[BASE], First(t[BASE], p, inside), p, inside)
    ensures Eval(t, t[BASE], p, inside, depth) != TooDeep
  {
    hide Kind;
    KindFacts();
    assert ChainOk(t, BASE);
    BaseChainMeaning(t, t[BASE], p, inside, depth);
  }

  /** The same rules in each network and policy chain, in any order. */
  ghost predicate SameRules(t: Table, u: Table) {
    && t.Keys == u.Keys
    && forall c :: c in t && Kind(c) != BaseChain ==> forall r :: r in t[c] <==> r in u[c]
  }

  /** Reordering jumps in network chains or peer rules in policy chains changes no packet's verdict. */
  lemma OrderIsIrrelevant(t: Table, u: Table, p: Packet, inside: Subnets, depth: nat)
    requires Shape(t) && Shape(u) && depth >= 2
    requires SameRules(t, u) && t[BASE] == u[BASE]
    ensures Eval(t, t[BASE], p, inside, depth) == Eval(u, u[BASE], p, inside, depth)
  {
    hide Kind, Eval, Admitted;
    KindFacts();
    GraphMeaning(t, p, inside, depth);
    GraphMeaning(u, p, inside, depth);
    var i := First(t[BASE], p, inside);
    if i < |t[BASE]| {
      var c := t[BASE][i].target;
      assert ChainOk(t, BASE) && BaseRule(t, t[BASE][i]);
      if Admitted(t, t[c], p, inside) { AdmittedSame(t, u, c, p, inside); }
      if Admitted(u, u[c], p, inside) { AdmittedSame(u, t, c, p, inside); }
    }
  }

  lemma AdmittedSame(t: Table, u: Table, c: string, p: Packet, inside: Subnets)
    requires Shape(t) && SameRules(t, u) && c in t && IsNet(c)
    requires Admitted(t, t[c], p, inside)
    ensures Admitted(u, u[c], p, inside)
  {
    hide Kind;
    var j :| j in t[c] && j.target in t && IsPol(j.target) && SomePeerMatches(t[j.target], p, inside);
    var r :| r in t[j.target] && Matches(r.on, p, inside);
    assert j in u[c] && r in u[j.target];
  }

  // ---------- The order of the base chain ----------

  /** All networks that claim the packet by a base rule decide alike on it. */
  ghost predicate Undisputed(t: Table, p: Packet, inside: Subnets)
    requires Shape(t)
  {
    forall r, q :: r in t[BASE] && q in t[BASE] && Matches(r.on, p, inside) && Matches(q.on, p, inside)
                   && r.target in t && q.target in t ==>
      (Admitted(t, t[r.target], p, inside) <==> Admitted(t, t[q.target], p, inside))
  }

  /** In particular a packet that only one network claims is undisputed. */
  lemma OneNetworkIsUndisputed(t: Table, p: Packet, inside: Subnets)
    requires Shape(t)
    requires forall r, q :: r in t[BASE] && q in t[BASE] && Matches(r.on, p, inside) && Matches(q.on, p, inside) ==>
               r.target == q.target
    ensures Undisputed(t, p, inside)
  {
    hide Shape, Admitted;
  }

  lemma AdmittedAlike(t: Table, u: Table, c: string, p: Packet, inside: Subnets)
    requires Shape(t) && Shape(u) && SameRules(t, u) && c in t && IsNet(c)
    ensures Admitted(t, t[c], p, inside) <==> Admitted(u, u[c], p, inside)
  {
    hide Kind, Admitted;
    KindFacts();
    if Admitted(t, t[c], p, inside) { AdmittedSame(t, u, c, p, inside); }
    if Admitted(u, u[c], p, inside) { AdmittedSame(u, t, c, p, inside); }
  }

  /** A packet that is undisputed meets the same verdict whatever the order of all rules but REJECT. */
  lemma BaseOrderIsIrrelevant(t: Table, u: Table, p: Packet, inside: Subnets, depth: nat)
    requires Shape(t) && Shape(u) && depth >= 2 && SameRules(t, u)
    requires (forall r :: r in t[BASE] <==> r in u[BASE]) && Undisputed(t, p, inside)
    ensures Eval(t, t[BASE], p, inside, depth) == Eval(u, u[BASE], p, inside, depth)
  {
    hide Kind, Eval, Admitted, ChainOk, SameRules;
    GraphMeaning(t, p, inside, depth);
    GraphMeaning(u, p, inside, depth);
    var i, j := First(t[BASE], p, inside), First(u[BASE], p, inside);
    if i < |t[BASE]| {
      var r := t[BASE][i];
      assert r in u[BASE];
      var k :| 0 <= k < |u[BASE]| && u[BASE][k] == r;
      assert j <= k;
      var q := u[BASE][j];
      assert q in t[BASE];
      BaseRuleOf(t, r);
      BaseRuleOf(t, q);
      AdmittedAlike(t, u, q.target, p, inside);
      BaseRuleOf(u, q);
    } else {
      forall k | 0 <= k < |u[BASE]| ensures !Matches(u[BASE][k].on, p, inside) {
        assert u[BASE][k] in t[BASE];
        var l :| 0 <= l < |t[BASE]| && t[BASE][l] == u[BASE][k];
      }
    }
  }

  /** The table with one of its base rules put first. */
  function MovedUp(t: Table, i: nat): Table
    requires BASE in t && i < |t[BASE]|
  {
    t[BASE := [t[BASE][i]] + t[BASE][..i] + t[BASE][i + 1..]]
  }

  lemma MovedUpFacts(rules: seq<Rule>, i: nat)
    requires i < |rules|
    ensures var moved := [rules[i]] + rules[..i] + rules[i + 1..];
            multiset(moved) == multiset(rules) && forall r :: r in moved <==> r in rules
  {
    var before, after := rules[..i], rules[i + 1..];
    var moved := [rules[i]] + before + after;
    assert rules == before + [rules[i]] + after;
    assert multiset(moved) == multiset(rules);
    forall r ensures r in moved <==> r in rules {
      assert r in moved <==> r in multiset(moved);
      assert r in rules <==> r in multiset(rules);
    }
  }

  lemma MovedUpNoDup(rules: seq<Rule>, i: nat)
    requires i < |rules| && NoDup(rules)
    ensures NoDup([rules[i]] + rules[..i] + rules[i + 1..])
  {
    var moved := [rules[i]] + rules[..i] + rules[i + 1..];
    assert forall k :: 0 <= k < |moved| ==> moved[k] == rules[if k == 0 then i else if k <= i then k - 1 else k];
  }

  lemma ReorderedShape(t: Table, rules: seq<Rule>)
    requires Shape(t) && NoDup(rules) && forall r :: r in rules <==> r in t[BASE]
    ensures Shape(t[BASE := rules]) && SameRules(t, t[BASE := rules])
  {
    hide Kind;
    KindFacts();
    var u := t[BASE := rules];
    forall c | c in u ensures ChainOk(u, c) { assert ChainOk(t, c); }
  }

  lemma MovedUpShape(t: Table, i: nat)
    requires Shape(t) && i < |t[BASE]|
    ensures Shape(MovedUp(t, i)) && SameRules(t, MovedUp(t, i))
    ensures multiset(MovedUp(t, i)[BASE]) == multiset(t[BASE])
  {
    hide Kind, SameRules, NoDup;
    KindFacts();
    var rules := t[BASE];
    assert NoDup(rules) by { assert ChainOk(t, BASE); }
    hide ChainOk;
    MovedUpFacts(rules, i);
    MovedUpNoDup(rules, i);
    ReorderedShape(t, [rules[i]] + rules[..i] + rules[i + 1..]);
  }

  /** The network of a base rule that is put first decides. */
  lemma MovedUpDecides(t: Table, i: nat, p: Packet, inside: Subnets, depth: nat)
    requires Shape(t) && i < |t[BASE]| && depth >= 2 && Matches(t[BASE][i].on, p, inside) && t[BASE][i].target in t
    ensures Shape(MovedUp(t, i)) && SameRules(t, MovedUp(t, i))
    ensures multiset(MovedUp(t, i)[BASE]) == multiset(t[BASE])
    ensures Eval(MovedUp(t, i), MovedUp(t, i)[BASE], p, inside, depth) ==
            if Admitted(t, t[t[BASE][i].target], p, inside) then Accepted else Rejected
  {
    hide Kind, Eval, Admitted, ChainOk, SameRules;
    MovedUpShape(t, i);
    var u, r := MovedUp(t, i), t[BASE][i];
    GraphMeaning(u, p, inside, depth);
    assert u[BASE][0] == r && First(u[BASE], p, inside) == 0;
    BaseRuleOf(t, r);
    AdmittedAlike(t, u, r.target, p, inside);
    BaseRuleOf(u, r);
  }

  /** A disputed packet meets another verdict if only the base chain is put into a suitable order. */
  lemma DisputedDependsOnOrder(t: Table, p: Packet, inside: Subnets, depth: nat) returns (u: Table)
    requires Shape(t) && depth >= 2 && !Undisputed(t, p, inside)
    ensures Shape(u) && SameRules(t, u) && multiset(u[BASE]) == multiset(t[BASE])
    ensures Eval(u, u[BASE], p, inside, depth) != Eval(t, t[BASE], p, inside, depth)
  {
    hide Kind, Eval, Admitted, ChainOk, SameRules, MovedUp;
    var r, q :| r in t[BASE] && q in t[BASE] && Matches(r.on, p, inside) && Matches(q.on, p, inside)
             && r.target in t && q.target in t
             && (Admitted(t, t[r.target], p, inside) <==> !Admitted(t, t[q.target], p, inside));
    var i :| 0 <= i < |t[BASE]| && t[BASE][i] == r;
    var j :| 0 <= j < |t[BASE]| && t[BASE][j] == q;
    MovedUpDecides(t, i, p, inside, depth);
    MovedUpDecides(t, j, p, inside, depth);
    u := MovedUp(t, i);
    if Eval(u, u[BASE], p, inside, depth) == Eval(t, t[BASE], p, inside, depth) { u := MovedUp(t, j); }
  }
}
