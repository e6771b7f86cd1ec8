/**
  The shape of the filter table that every run of the controller keeps, what
  the text-driven operations do to a table of that shape, and their proofs.
 */
module Invariant {
  import opened Sequences
  import opened Text
  import opened Rules
  import opened Tables

  /** A base rule: one network's subnet, as source or destination, leads to its existing chain. */
  ghost predicate BaseRule(t: Table, r: Rule) {
    !r.on.Any? && Cidr(r.on.subnet) && IsNet(r.target) && r.target in t
  }

  ghost predicate PolicyJump(t: Table, r: Rule) {
    r.on.Any? && IsPol(r.target) && r.target in t
  }

  ghost predicate PeerRule(r: Rule) {
    !r.on.Any? && Cidr(r.on.subnet) && r.target == ACCEPT
  }

  /** Distinct policy jumps followed by exactly one REJECT. */
  ghost predicate NetworkRules(t: Table, rules: seq<Rule>) {
    && rules != [] && rules[|rules| - 1] == REJECT_ALL
    && NoDup(rules)
    && forall r :: r in rules ==> r == REJECT_ALL || PolicyJump(t, r)
  }

  ghost predicate PolicyRules(rules: seq<Rule>) {
    NoDup(rules) && forall r :: r in rules ==> PeerRule(r)
  }

  ghost predicate ChainOk(t: Table, c: string)
    requires c in t
  {
    match Kind(c)
    case BaseChain => NoDup(t[c]) && forall r :: r in t[c] ==> BaseRule(t, r)
    case NetworkChain => NetworkRules(t, t[c])
    case PolicyChain => PolicyRules(t[c])
    case ForeignChain => forall r :: r in t[c] ==> !IsNet(r.target) && !IsPol(r.target)
  }

  /** Three layers: base rules lead to network chains, those to policy chains, and these only accept. */
  ghost predicate Shape(t: Table) {
    BASE in t && "" !in t && forall c :: c in t ==> ChainOk(t, c)
  }

  /** `Shape`, with each network's subnet fixed: at most one rule per direction and network in the base chain. */
  ghost predicate Inv(t: Table, subnetOf: string -> string) {
    Shape(t) && forall r :: r in t[BASE] ==> r.on.subnet == subnetOf(r.target)
  }

  lemma BaseRuleOf(t: Table, r: Rule)
    requires Shape(t) && r in t[BASE]
    ensures BaseRule(t, r)
  {
    hide Kind;
    KindFacts();
    assert ChainOk(t, BASE);
  }

  // ---------- Rules without those that lead to a given chain ----------

  function Without(rules: seq<Rule>, target: string): seq<Rule> {
    if rules == [] then []
    else if rules[0].target == target then Without(rules[1..], target)
    else [rules[0]] + Without(rules[1..], target)
  }

  lemma {:induction false} WithoutMembers(rules: seq<Rule>, target: string)
    ensures forall r :: r in Without(rules, target) <==> r in rules && r.target != target
  {
    if rules != [] {
      WithoutMembers(rules[1..], target);
      assert forall r :: r in rules <==> r == rules[0] || r in rules[1..];
    }
  }

  lemma {:induction false} WithoutNoDup(rules: seq<Rule>, target: string)
    requires NoDup(rules)
    ensures NoDup(Without(rules, target))
  {
    if rules != [] {
      WithoutNoDup(rules[1..], target);
      WithoutMembers(rules[1..], target);
    }
  }

  lemma WithoutCons(r: Rule, rest: seq<Rule>, target: string)
    ensures Without([], target) == []
    ensures r.target == target ==> Without([r] + rest, target) == Without(rest, target)
    ensures r.target != target ==> Without([r] + rest, target) == [r] + Without(rest, target)
  {
    assert ([r] + rest)[1..] == rest;
  }

  lemma {:induction false} WithoutAppend(a: seq<Rule>, b: seq<Rule>, target: string)
    ensures Without(a + b, target) == Without(a, target) + Without(b, target)
  {
    hide Without;
    if a == [] {
      WithoutCons(REJECT_ALL, [], target);
      assert a + b == b;
    } else {
      var r, rest := a[0], a[1..];
      WithoutAppend(rest, b, target);
      WithoutCons(r, rest, target);
      WithoutCons(r, rest + b, target);
      assert a == [r] + rest && a + b == [r] + (rest + b);
    }
  }

  lemma {:induction false} WithoutAbsent(rules: seq<Rule>, target: string)
    requires forall r :: r in rules ==> r.target != target
    ensures Without(rules, target) == rules
  {
    if rules != [] {
      WithoutAbsent(rules[1..], target);
    }
  }

  lemma WithoutKeepsLast(rules: seq<Rule>, target: string)
    requires rules != [] && rules[|rules| - 1].target != target
    ensures Without(rules, target) != []
    ensures Without(rules, target)[|Without(rules, target)| - 1] == rules[|rules| - 1]
  {
    var n := |rules| - 1;
    assert rules == rules[..n] + [rules[n]];
    WithoutAppend(rules[..n], [rules[n]], target);
  }

  // ---------- Removing a network chain ----------

  lemma {:induction false} DropFirstIsWithout(rules: seq<Rule>, c: string, hits: set<Rule>, n: nat)
    requires NoDup(rules) && IsNet(c)
    requires forall r :: r in rules ==> Printable(BASE, r)
    requires forall r :: r in rules && r.target == c ==> r in hits
    requires |hits| <= n
    ensures DropFirst(BASE, rules, c, n) == Without(rules, c)
  {
    if n == 0 {
      WithoutAbsent(rules, c);
    } else if rules != [] {
      MentionsName(BASE, rules[0], c);
      if rules[0].target == c {
        DropFirstIsWithout(rules[1..], c, hits - {rules[0]}, n - 1);
      } else {
        DropFirstIsWithout(rules[1..], c, hits, n);
      }
    }
  }

  /** The table without a network chain and without the base rules that lead to it. */
  function DropNetwork(t: Table, c: string): Table
    requires BASE in t
  {
    t[BASE := Without(t[BASE], c)] - {c}
  }

  lemma BaseHeaderHoldsNoName(c: string)
    requires IsNet(c)
    ensures !Contains(Header(BASE), c)
  {
    NameHasNoBlank(c);
    HeaderMentions(BASE, c);
    NameInName(BASE, c);
  }

  lemma DropTwoIsWithout(t: Table, c: string, subnet: string)
    requires Shape(t) && IsNet(c)
    requires forall r :: r in t[BASE] && r.target == c ==> r.on.subnet == subnet
    ensures DropTwo(BASE, t[BASE], c) == Without(t[BASE], c)
  {
    BaseHeaderHoldsNoName(c);
    assert ChainOk(t, BASE);
    var hits := {Rule(Dst(subnet), c), Rule(Src(subnet), c)};
    forall r | r in t[BASE] && r.target == c ensures r in hits {
      assert r == Rule(r.on, c) && BaseRule(t, r);
    }
    DropFirstIsWithout(t[BASE], c, hits, 2);
  }

  lemma DropNetworkKeepsInv(t: Table, c: string, subnetOf: string -> string)
    requires Inv(t, subnetOf) && IsNet(c)
    ensures Inv(DropNetwork(t, c), subnetOf)
    ensures c !in t ==> DropNetwork(t, c) == t
  {
    hide Kind, Without;
    KindFacts();
    WithoutMembers(t[BASE], c);
    WithoutNoDup(t[BASE], c) by { assert ChainOk(t, BASE); }
    assert ChainOk(t, BASE);
    var u := DropNetwork(t, c);
    forall d | d in u ensures ChainOk(u, d) {
      assert ChainOk(t, d);
      NobodyElseLeadsTo(t, d, c);
    }
    if c !in t {
      WithoutAbsent(t[BASE], c);
    }
  }

  /** Removing a network chain always succeeds on an invariant table and takes its base rules along, no others. */
  lemma RemoveNetworkExact(t: Table, c: string, subnetOf: string -> string)
    requires Inv(t, subnetOf) && IsNet(c)
    ensures RemoveNetwork(t, c) == (DropNetwork(t, c), Done)
    ensures c !in t ==> DropNetwork(t, c) == t
    ensures Inv(DropNetwork(t, c), subnetOf)
  {
    hide Kind, Contains, Line, Header, Without, DropTwo, ChainOk;
    KindFacts();
    DropNetworkKeepsInv(t, c, subnetOf);
    DropTwoIsWithout(t, c, subnetOf(c));
    WithoutMembers(t[BASE], c);
    var t2: Table := ClearChain(t[BASE := Without(t[BASE], c)], c);
    forall d: string | d in t2 ensures forall r :: r in t2[d] ==> r.target != c {
      NobodyElseLeadsTo(t, d, c);
    }
    assert !Referenced(t2, c);
    assert t2 - {c} == DropNetwork(t, c);
  }

  lemma NobodyElseLeadsTo(t: Table, d: string, c: string)
    requires Shape(t) && IsNet(c)
    ensures d in t && d != BASE ==> forall r :: r in t[d] ==> r.target != c
  {
    if d in t {
      assert ChainOk(t, d);
    }
  }

  // ---------- Removing one jump ----------

  lemma {:induction false} StaleDeletesNone(rules: seq<Rule>, lines: seq<string>, text: string)
    requires forall i :: 0 <= i < |lines| ==> !Contains(lines[i], text)
    ensures StaleDeletes(rules, lines, text) == rules
  {
    if lines != [] {
      StaleDeletesNone(rules, lines[..|lines| - 1], text);
    }
  }

  /** With a single hit the number is still right when it is used. */
  lemma {:induction false} StaleDeletesOne(rules: seq<Rule>, lines: seq<string>, text: string, j: nat)
    requires j < |lines| && Contains(lines[j], text)
    requires forall i :: 0 <= i < |lines| && i != j ==> !Contains(lines[i], text)
    ensures StaleDeletes(rules, lines, text) == RemoveNumber(rules, j)
  {
    var n := |lines| - 1;
    if j == n {
      StaleDeletesNone(rules, lines[..n], text);
    } else {
      StaleDeletesOne(rules, lines[..n], text, j);
    }
  }

  lemma {:induction false} RemoveAtIsWithout(rules: seq<Rule>, j: nat)
    requires j < |rules|
    requires forall i :: 0 <= i < |rules| && i != j ==> rules[i].target != rules[j].target
    ensures RemoveAt(rules, j) == Without(rules, rules[j].target)
  {
    var p := rules[j].target;
    assert rules == rules[..j] + ([rules[j]] + rules[j + 1..]);
    WithoutAppend(rules[..j], [rules[j]] + rules[j + 1..], p);
    WithoutAppend([rules[j]], rules[j + 1..], p);
    WithoutAbsent(rules[..j], p);
    WithoutAbsent(rules[j + 1..], p);
    assert Without([rules[j]], p) == [];
  }

  /** Some policy other than `p` is still jumped to. */
  predicate OtherJump(rules: seq<Rule>, p: string) {
    exists i :: 0 <= i < |rules| && rules[i].target != p && IsPol(rules[i].target)
  }

  lemma NetworkLines(t: Table, c: string, p: string)
    requires Shape(t) && IsNet(c) && c in t && IsPol(p)
    ensures forall i :: 0 <= i < |t[c]| ==>
              (Mentions(c, t[c][i], p) <==> t[c][i].target == p)
              && (Mentions(c, t[c][i], POLICY_PREFIX) <==> IsPol(t[c][i].target))
    ensures !Contains(Header(c), p) && !Contains(Header(c), POLICY_PREFIX)
  {
    assert ChainOk(t, c);
    PrefixFacts();
    NameHasNoBlank(p);
    HeaderMentions(c, p);
    NameInName(c, p);
    HeaderMentions(c, POLICY_PREFIX);
    PrefixInName(c, POLICY_PREFIX);
    forall i | 0 <= i < |t[c]|
      ensures (Mentions(c, t[c][i], p) <==> t[c][i].target == p)
              && (Mentions(c, t[c][i], POLICY_PREFIX) <==> IsPol(t[c][i].target))
    {
      var r := t[c][i];
      assert r == REJECT_ALL || PolicyJump(t, r);
      MentionsName(c, r, p);
      MentionsPrefix(c, r, POLICY_PREFIX);
      KindOfNamed(r.target);
    }
  }

  lemma KeepsPolicyIsOtherJump(t: Table, c: string, p: string)
    requires Shape(t) && IsNet(c) && c in t && IsPol(p)
    ensures KeepsPolicy(Listing(t, c), p) <==> OtherJump(t[c], p)
  {
    hide Kind, Contains, Line, Header;
    KindFacts();
    NetworkLines(t, c, p);
    var lines := Listing(t, c);
    if KeepsPolicy(lines, p) {
      var i :| 0 <= i < |lines| && !Contains(lines[i], p) && Contains(lines[i], POLICY_PREFIX);
      assert i > 0 && lines[i] == Line(c, t[c][i - 1]);
    }
    if OtherJump(t[c], p) {
      var i :| 0 <= i < |t[c]| && t[c][i].target != p && IsPol(t[c][i].target);
      assert lines[i + 1] == Line(c, t[c][i]);
      assert !Mentions(c, t[c][i], p) && Mentions(c, t[c][i], POLICY_PREFIX);
    }
  }

  lemma JumpsAreDistinct(t: Table, c: string, j: nat)
    requires Shape(t) && IsNet(c) && c in t && j < |t[c]| && IsPol(t[c][j].target)
    ensures forall i :: 0 <= i < |t[c]| && i != j ==> t[c][i].target != t[c][j].target
  {
    hide Kind;
    KindFacts();
    assert ChainOk(t, c);
    forall i | 0 <= i < |t[c]| && i != j ensures t[c][i].target != t[c][j].target {
      assert t[c][i] != t[c][j];
      assert t[c][i] == REJECT_ALL || PolicyJump(t, t[c][i]);
      assert PolicyJump(t, t[c][j]);
    }
  }

  lemma StaleDeletesIsWithout(t: Table, c: string, p: string)
    requires Shape(t) && IsNet(c) && c in t && IsPol(p)
    ensures StaleDeletes(t[c], Listing(t, c), p) == Without(t[c], p)
  {
    hide Kind, Contains, Line, Header;
    KindFacts();
    NetworkLines(t, c, p);
    assert ChainOk(t, c);
    var rules, lines := t[c], Listing(t, c);
    forall i | 0 < i < |lines| ensures Contains(lines[i], p) <==> rules[i - 1].target == p {
      assert lines[i] == Line(c, rules[i - 1]);
      assert Mentions(c, rules[i - 1], p) <==> rules[i - 1].target == p;
    }
    if j :| 0 <= j < |rules| && rules[j].target == p {
      JumpsAreDistinct(t, c, j);
      StaleDeletesOne(rules, lines, p, j + 1);
      RemoveAtIsWithout(rules, j);
    } else {
      StaleDeletesNone(rules, lines, p);
      WithoutAbsent(rules, p);
    }
  }

  /** The table after a network chain has lost its jump to a policy, and itself if that was the last policy. */
  function DropJump(t: Table, c: string, p: string): Table
    requires BASE in t && c in t
  {
    if OtherJump(t[c], p) then t[c := Without(t[c], p)] else DropNetwork(t, c)
  }

  lemma WithoutJumpKeepsInv(t: Table, c: string, p: string, subnetOf: string -> string)
    requires Inv(t, subnetOf) && IsNet(c) && c in t && IsPol(p)
    ensures Inv(t[c := Without(t[c], p)], subnetOf)
  {
    hide Kind, Contains, Line, Header;
    KindFacts();
    var t1 := t[c := Without(t[c], p)];
    assert ChainOk(t, c);
    WithoutMembers(t[c], p);
    WithoutNoDup(t[c], p);
    WithoutKeepsLast(t[c], p);
    assert ChainOk(t1, c);
    forall d | d in t1 ensures ChainOk(t1, d) {
      assert ChainOk(t, d);
    }
  }

  /** Jump removal takes out exactly the one jump, and the whole chain iff no other policy is left in it. */
  lemma RemoveJumpExact(t: Table, c: string, p: string, subnetOf: string -> string)
    requires Inv(t, subnetOf) && IsNet(c) && c in t && IsPol(p)
    ensures RemoveJump(t, c, p) == (DropJump(t, c, p), Done)
    ensures Inv(DropJump(t, c, p), subnetOf)
  {
    hide Kind, Contains, Line, Header, ChainOk, StaleDeletes, Without, RemoveNetwork, OtherJump, KeepsPolicy, Listing;
    KindFacts();
    StaleDeletesIsWithout(t, c, p);
    KeepsPolicyIsOtherJump(t, c, p);
    var t1 := t[c := Without(t[c], p)];
    WithoutJumpKeepsInv(t, c, p, subnetOf);
    if !OtherJump(t[c], p) {
      RemoveNetworkExact(t1, c, subnetOf);
      RemoveNetworkExact(t, c, subnetOf);
      assert DropNetwork(t1, c) == DropNetwork(t, c);
    }
  }
}
