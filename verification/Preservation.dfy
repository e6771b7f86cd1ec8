/** Every remaining table operation keeps the invariant. */
module Preservation {
  import opened Sequences
  import opened Text
  import opened Rules
  import opened Tables
  import opened Invariant

  /** A policy chain may take any duplicate-free accept rules. */
  lemma PolicyRulesKeepInv(t: Table, p: string, rules: seq<Rule>, subnetOf: string -> string)
    requires Inv(t, subnetOf) && IsPol(p) && PolicyRules(rules)
    ensures Inv(t[p := rules], subnetOf)
  {
    hide Kind;
    KindFacts();
    var t1 := t[p := rules];
    forall d | d in t1 ensures ChainOk(t1, d) {
      if d != p { assert ChainOk(t, d); }
    }
  }

  lemma ClearPolicyKeepsInv(t: Table, p: string, subnetOf: string -> string)
    requires Inv(t, subnetOf) && IsPol(p)
    ensures Inv(ClearChain(t, p), subnetOf)
  {
    PolicyRulesKeepInv(t, p, [], subnetOf);
  }

  lemma InsertPeerKeepsInv(t: Table, p: string, subnet: string, subnetOf: string -> string)
    requires Inv(t, subnetOf) && IsPol(p)
    ensures Inv(InsertPeer(t, p, subnet).0, subnetOf)
  {
    hide Kind;
    KindFacts();
    if p in t && Cidr(subnet) {
      assert ChainOk(t, p);
      var (t1, e1) := AppendUnique(t, p, AcceptFrom(subnet));
      PolicyRulesKeepInv(t, p, t1[p], subnetOf);
      assert t1 == t[p := t1[p]];
      assert ChainOk(t1, p);
      var (t2, e2) := AppendUnique(t1, p, AcceptTo(subnet));
      PolicyRulesKeepInv(t1, p, t2[p], subnetOf);
      assert t2 == t1[p := t2[p]];
    }
  }

  lemma InsertJumpKeepsInv(t: Table, c: string, p: string, subnetOf: string -> string)
    requires Inv(t, subnetOf) && IsPol(p) && (IsNet(c) || c == "")
    ensures Inv(InsertFirst(t, c, Jump(p)).0, subnetOf)
  {
    hide Kind;
    KindFacts();
    if c in t && p in t && Jump(p) !in t[c] {
      assert ChainOk(t, c);
      var t1 := InsertFirst(t, c, Jump(p)).0;
      assert t1[c] == [Jump(p)] + t[c] && t1[c][|t1[c]| - 1] == t[c][|t[c]| - 1];
      assert NetworkRules(t1, t1[c]);
      forall d | d in t1 ensures ChainOk(t1, d) {
        if d != c { assert ChainOk(t, d); }
      }
    }
  }

  function AppendNew(rules: seq<Rule>, r: Rule): seq<Rule> {
    if r in rules then rules else rules + [r]
  }

  function BaseWith(rules: seq<Rule>, c: string, subnet: string): seq<Rule> {
    AppendNew(AppendNew(rules, Rule(Dst(subnet), c)), Rule(Src(subnet), c))
  }

  lemma BaseWithTwice(rules: seq<Rule>, c: string, subnet: string)
    ensures BaseWith(BaseWith(rules, c, subnet), c, subnet) == BaseWith(rules, c, subnet)
  {
  }

  function WithNetwork(t: Table, c: string, subnet: string): Table
    requires BASE in t
  {
    t[c := [REJECT_ALL]][BASE := BaseWith(t[BASE], c, subnet)]
  }

  /** Adding a network, on any table with a base chain. */
  lemma AddNetworkIs(t: Table, c: string, subnet: string)
    requires BASE in t && c != BASE
    ensures Cidr(subnet) ==> AddNetwork(t, c, subnet) == (WithNetwork(t, c, subnet), c, Done)
    ensures !Cidr(subnet) ==> AddNetwork(t, c, subnet) == (t[c := [REJECT_ALL]], "", Fail(2))
  {
    hide Cidr;
    var t1 := t[c := [REJECT_ALL]];
    var empty: seq<Rule> := [];
    assert empty + [REJECT_ALL] == [REJECT_ALL];
    assert ClearChain(t, c)[c := empty + [REJECT_ALL]] == t1;
    if Cidr(subnet) {
      var t2 := AppendUnique(t1, BASE, Rule(Dst(subnet), c)).0;
      assert t1[BASE := t[BASE]] == t1;
      assert t2 == t1[BASE := AppendNew(t[BASE], Rule(Dst(subnet), c))];
      assert t2[BASE := BaseWith(t[BASE], c, subnet)] == WithNetwork(t, c, subnet);
    }
  }

  /** Adding a network: a chain that only rejects, and its base rules unless the subnet is malformed. */
  lemma AddNetworkExact(t: Table, c: string, subnet: string, subnetOf: string -> string)
    requires Inv(t, subnetOf) && IsNet(c) && (Cidr(subnet) ==> subnet == subnetOf(c))
    ensures Cidr(subnet) ==> AddNetwork(t, c, subnet) == (WithNetwork(t, c, subnet), c, Done)
    ensures !Cidr(subnet) ==> AddNetwork(t, c, subnet) == (t[c := [REJECT_ALL]], "", Fail(2))
    ensures Inv(AddNetwork(t, c, subnet).0, subnetOf)
  {
    hide Kind, AddNetwork, Cidr;
    KindFacts();
    AddNetworkIs(t, c, subnet);
    var t1 := t[c := [REJECT_ALL]];
    assert NetworkRules(t1, t1[c]);
    forall d | d in t1 ensures ChainOk(t1, d) {
      if d != c { assert ChainOk(t, d); }
    }
    if Cidr(subnet) {
      BaseAppendKeepsInv(t1, Rule(Dst(subnet), c), subnetOf);
      var t2 := t1[BASE := AppendNew(t1[BASE], Rule(Dst(subnet), c))];
      BaseAppendKeepsInv(t2, Rule(Src(subnet), c), subnetOf);
      assert t2[BASE := BaseWith(t[BASE], c, subnet)] == WithNetwork(t, c, subnet);
    }
  }

  lemma BaseAppendKeepsInv(t: Table, r: Rule, subnetOf: string -> string)
    requires Inv(t, subnetOf) && BaseRule(t, r) && r.on.subnet == subnetOf(r.target)
    ensures AppendUnique(t, BASE, r) == (t[BASE := AppendNew(t[BASE], r)], Done)
    ensures Inv(t[BASE := AppendNew(t[BASE], r)], subnetOf)
  {
    hide Kind;
    KindFacts();
    assert ChainOk(t, BASE);
    var t1 := t[BASE := AppendNew(t[BASE], r)];
    assert t[BASE := t[BASE]] == t;
    assert NoDup(t1[BASE]);
    forall d | d in t1 ensures ChainOk(t1, d) {
      assert ChainOk(t, d);
    }
  }

  // ---------- Deletions ----------

  lemma {:induction false} DropFirstIsPart(chain: string, rules: seq<Rule>, text: string, n: nat)
    ensures forall r :: r in DropFirst(chain, rules, text, n) ==> r in rules
    ensures NoDup(rules) ==> NoDup(DropFirst(chain, rules, text, n))
  {
    hide Mentions;
    if rules != [] && n > 0 {
      var k := if Mentions(chain, rules[0], text) then n - 1 else n;
      DropFirstIsPart(chain, rules[1..], text, k);
      var rest := DropFirst(chain, rules[1..], text, k);
      assert forall r :: r in rest ==> r in rules[1..];
      if NoDup(rules) {
        assert rules[0] !in rules[1..];
        assert NoDup([rules[0]] + rest);
      }
    }
  }

  lemma DropTwoKeepsInv(t: Table, p: string, text: string, subnetOf: string -> string)
    requires Inv(t, subnetOf) && IsPol(p) && p in t
    ensures Inv(t[p := DropTwo(p, t[p], text)], subnetOf)
  {
    hide Kind, Contains, Mentions;
    KindFacts();
    assert ChainOk(t, p);
    DropFirstIsPart(p, t[p], text, if Contains(Header(p), text) then 1 else 2);
    PolicyRulesKeepInv(t, p, DropTwo(p, t[p], text), subnetOf);
  }

  /** Deleting a policy chain: gone if nobody jumps to it, otherwise left behind empty with an error. */
  lemma FlushDeletePolicyExact(t: Table, p: string, subnetOf: string -> string)
    requires Inv(t, subnetOf) && IsPol(p)
    ensures Referenced(t, p) ==> FlushDelete(t, p) == (t[p := []], Fail(1))
    ensures !Referenced(t, p) ==> FlushDelete(t, p) == (t - {p}, Done)
    ensures Inv(FlushDelete(t, p).0, subnetOf)
  {
    hide Kind;
    KindFacts();
    var t1: Table := ClearChain(t, p);
    ClearPolicyKeepsInv(t, p, subnetOf);
    if Referenced(t, p) {
      var d :| d in t && exists i :: 0 <= i < |t[d]| && t[d][i].target == p;
      var i :| 0 <= i < |t[d]| && t[d][i].target == p;
      assert d != p by { assert ChainOk(t, d); assert t[d][i] in t[d]; }
      assert t1[d][i].target == p;
      assert Referenced(t1, p);
    } else {
      assert !Referenced(t1, p);
      assert t1 - {p} == t - {p};
      var t2 := t - {p};
      forall d | d in t2 ensures ChainOk(t2, d) {
        assert ChainOk(t, d);
        forall r | r in t[d] ensures r.target != p {
          var i :| 0 <= i < |t[d]| && t[d][i] == r;
          assert t[d][i].target == r.target;
        }
      }
    }
  }

  // ---------- Starting ----------

  /**
    `Inv` before there is a base chain: the table of a node where the controller
    has not run yet, or has been stopped.
   */
  ghost predicate Startable(t: Table) {
    && "" !in t && FORWARD in t
    && forall c :: c in t ==> Kind(c) == BaseChain || ChainOk(t, c)
  }

  /** Starting (or restarting) the controller establishes the invariant, whatever the base chain held before. */
  lemma RestartEstablishesInv(t: Table, subnetOf: string -> string)
    requires Startable(t)
    ensures Restart(t).1 == Done
    ensures Inv(Restart(t).0, subnetOf) && Restart(t).0[BASE] == []
    ensures Startable(Restart(t).0) && Jump(BASE) in Restart(t).0[FORWARD]
    ensures Restart(t).0[FORWARD] == if Jump(BASE) in t[FORWARD] then t[FORWARD] else [Jump(BASE)] + t[FORWARD]
    ensures forall c :: c in t && c != BASE && c != FORWARD ==> c in Restart(t).0 && Restart(t).0[c] == t[c]
  {
    hide Kind;
    KindFacts();
    var t1 := ClearChain(t, BASE);
    var t2 := Restart(t).0;
    if Jump(BASE) !in t1[FORWARD] {
      assert t2[FORWARD] == t1[FORWARD][..0] + [Jump(BASE)] + t1[FORWARD][0..];
    }
    forall d | d in t2 ensures ChainOk(t2, d) {
      if d in t && d != BASE { assert ChainOk(t, d); }
    }
  }

  lemma InvIsStartable(t: Table, subnetOf: string -> string)
    requires Inv(t, subnetOf) && FORWARD in t
    ensures Startable(t)
  {
  }
}
