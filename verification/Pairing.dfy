/**
  Peer rules come in pairs, one per direction, and deletion by subnet text
  takes out a whole pair and nothing else.
 */
module Pairing {
  import opened Sequences
  import opened Text
  import opened Rules
  import opened Tables
  import opened Invariant
  import opened Preservation

  /** Subnets that may be searched for: well formed, and none inside another's text. */
  ghost predicate SubstringFree(universe: string -> bool) {
    && (forall s :: universe(s) ==> Cidr(s))
    && forall a, b :: universe(a) && universe(b) && Contains(a, b) ==> a == b
  }

  ghost predicate PairedRules(rules: seq<Rule>, universe: string -> bool) {
    forall s :: (AcceptFrom(s) in rules <==> AcceptTo(s) in rules) && (AcceptFrom(s) in rules ==> universe(s))
  }

  ghost predicate Paired(t: Table, universe: string -> bool) {
    forall c :: c in t && IsPol(c) ==> PairedRules(t[c], universe)
  }

  function WithoutSubnet(rules: seq<Rule>, subnet: string): seq<Rule> {
    if rules == [] then []
    else if rules[0] == AcceptFrom(subnet) || rules[0] == AcceptTo(subnet) then WithoutSubnet(rules[1..], subnet)
    else [rules[0]] + WithoutSubnet(rules[1..], subnet)
  }

  lemma {:induction false} WithoutSubnetMembers(rules: seq<Rule>, subnet: string)
    ensures forall r :: r in WithoutSubnet(rules, subnet) <==>
            r in rules && r != AcceptFrom(subnet) && r != AcceptTo(subnet)
    ensures NoDup(rules) ==> NoDup(WithoutSubnet(rules, subnet))
  {
    if rules != [] {
      WithoutSubnetMembers(rules[1..], subnet);
      assert forall r :: r in rules <==> r == rules[0] || r in rules[1..];
      var rest := WithoutSubnet(rules[1..], subnet);
      assert NoDup(rules) ==> rules[0] !in rest;
    }
  }

  /** Nothing to remove: the rules stay as they are, so a second removal changes nothing. */
  lemma {:induction false} WithoutSubnetAbsent(rules: seq<Rule>, subnet: string)
    requires AcceptFrom(subnet) !in rules && AcceptTo(subnet) !in rules
    ensures WithoutSubnet(rules, subnet) == rules
  {
    if rules != [] { WithoutSubnetAbsent(rules[1..], subnet); }
  }

  lemma {:induction false} DropFirstIsWithoutSubnet(p: string, rules: seq<Rule>, subnet: string, hits: set<Rule>,
                                                    n: nat)
    requires IsPol(p) && NoDup(rules) && Cidr(subnet)
    requires forall r :: r in rules ==> PeerRule(r) && (Contains(r.on.subnet, subnet) <==> r.on.subnet == subnet)
    requires forall r :: r in rules && PeerRule(r) && r.on.subnet == subnet ==> r in hits
    requires |hits| <= n
    ensures DropFirst(p, rules, subnet, n) == WithoutSubnet(rules, subnet)
  {
    hide Kind, Contains, Line, Header, Cidr;
    if n == 0 {
      WithoutSubnetAbsent(rules, subnet);
    } else if rules != [] {
      var r := rules[0];
      assert r in rules && PeerRule(r);
      MentionsSubnet(p, r, subnet);
      if r.on.subnet == subnet {
        assert r == AcceptFrom(subnet) || r == AcceptTo(subnet);
        DropFirstIsWithoutSubnet(p, rules[1..], subnet, hits - {r}, n - 1);
      } else {
        DropFirstIsWithoutSubnet(p, rules[1..], subnet, hits, n);
      }
    }
  }

  /** Deleting by a subnet's text removes exactly its two rules and keeps the others in order. */
  lemma DropTwoIsWithoutSubnet(p: string, rules: seq<Rule>, subnet: string, universe: string -> bool)
    requires IsPol(p) && PolicyRules(rules) && PairedRules(rules, universe)
    requires SubstringFree(universe) && universe(subnet)
    ensures DropTwo(p, rules, subnet) == WithoutSubnet(rules, subnet)
    ensures PolicyRules(WithoutSubnet(rules, subnet)) && PairedRules(WithoutSubnet(rules, subnet), universe)
  {
    hide Kind, Contains, Header, DropFirst;
    var hits := {AcceptFrom(subnet), AcceptTo(subnet)};
    forall r | r in rules
      ensures PeerRule(r) && (Contains(r.on.subnet, subnet) <==> r.on.subnet == subnet)
      ensures r.on.subnet == subnet ==> r in hits
    {
      assert PeerRule(r);
      var s := r.on.subnet;
      assert r == AcceptFrom(s) || r == AcceptTo(s);
      assert universe(s);
      ContainsOfEqualLength(s, s);
    }
    MentionsSubnet(p, AcceptFrom(subnet), subnet);
    DropFirstIsWithoutSubnet(p, rules, subnet, hits, 2);
    WithoutSubnetMembers(rules, subnet);
  }

  // ---------- Without the hypothesis on texts ----------

  /** The rules left when the first `n` whose subnet's text contains `subnet` are taken out. */
  function DropHits(rules: seq<Rule>, subnet: string, n: nat): seq<Rule> {
    if rules == [] || n == 0 then rules
    else if !rules[0].on.Any? && Contains(rules[0].on.subnet, subnet) then DropHits(rules[1..], subnet, n - 1)
    else [rules[0]] + DropHits(rules[1..], subnet, n)
  }

  lemma {:induction false} DropFirstIsDropHits(p: string, rules: seq<Rule>, subnet: string, n: nat)
    requires IsPol(p) && Cidr(subnet) && forall r :: r in rules ==> PeerRule(r)
    ensures DropFirst(p, rules, subnet, n) == DropHits(rules, subnet, n)
  {
    hide Kind, Contains, Line, Header, Cidr;
    if rules != [] && n > 0 {
      assert PeerRule(rules[0]);
      MentionsSubnet(p, rules[0], subnet);
      DropFirstIsDropHits(p, rules[1..], subnet, n - 1);
      DropFirstIsDropHits(p, rules[1..], subnet, n);
    }
  }

  /**
    Deleting by a subnet's text takes out the first two rules whose subnet's
    text contains it, whatever the subnets.
   */
  lemma DropTwoTakesFirstHits(p: string, rules: seq<Rule>, subnet: string)
    requires IsPol(p) && Cidr(subnet) && forall r :: r in rules ==> PeerRule(r)
    ensures DropTwo(p, rules, subnet) == DropHits(rules, subnet, 2)
  {
    hide Kind, Contains, Header, Line, Cidr, DropHits, DropFirst;
    MentionsSubnet(p, AcceptFrom(subnet), subnet);
    DropFirstIsDropHits(p, rules, subnet, 2);
  }

  /** The rule is of the subnet itself. */
  predicate Own(r: Rule, subnet: string) { r == AcceptFrom(subnet) || r == AcceptTo(subnet) }

  function CountOwn(rules: seq<Rule>, subnet: string): nat {
    if rules == [] then 0 else CountOwn(rules[1..], subnet) + if Own(rules[0], subnet) then 1 else 0
  }

  /** The rule is not of the subnet, but its line is found by the search for the subnet's text. */
  predicate Lookalike(p: string, r: Rule, subnet: string) {
    Mentions(p, r, subnet) && !Own(r, subnet)
  }

  /** Before each lookalike stand `n` rules of the subnet itself. */
  ghost predicate OwnFirst(p: string, rules: seq<Rule>, subnet: string, n: nat) {
    forall i :: 0 <= i < |rules| && Lookalike(p, rules[i], subnet) ==> CountOwn(rules[..i], subnet) >= n
  }

  lemma OwnFirstCons(p: string, rules: seq<Rule>, subnet: string, n: nat)
    requires rules != [] && n > 0
    ensures OwnFirst(p, rules, subnet, n) <==>
            && !Lookalike(p, rules[0], subnet)
            && OwnFirst(p, rules[1..], subnet, if Own(rules[0], subnet) then n - 1 else n)
  {
    hide Own, Lookalike;
    var rest, k := rules[1..], if Own(rules[0], subnet) then n - 1 else n;
    forall i | 1 <= i < |rules|
      ensures rules[i] == rest[i - 1]
      ensures CountOwn(rules[..i], subnet) >= n <==> CountOwn(rest[..i - 1], subnet) >= k
    {
      assert rules[..i][1..] == rest[..i - 1];
    }
    if OwnFirst(p, rules, subnet, n) {
      assert Lookalike(p, rules[0], subnet) ==> CountOwn(rules[..0], subnet) >= n;
      forall i | 0 <= i < |rest| && Lookalike(p, rest[i], subnet) ensures CountOwn(rest[..i], subnet) >= k {
        assert rules[i + 1] == rest[i];
      }
    }
    if !Lookalike(p, rules[0], subnet) && OwnFirst(p, rest, subnet, k) {
      forall i | 0 <= i < |rules| && Lookalike(p, rules[i], subnet) ensures CountOwn(rules[..i], subnet) >= n {
        assert i > 0 && Lookalike(p, rest[i - 1], subnet);
      }
    }
  }

  lemma {:induction false} NoneOwn(rules: seq<Rule>, subnet: string)
    ensures CountOwn(rules, subnet) == 0 <==> AcceptFrom(subnet) !in rules && AcceptTo(subnet) !in rules
  {
    if rules != [] {
      NoneOwn(rules[1..], subnet);
      assert forall r :: r in rules <==> r == rules[0] || r in rules[1..];
    }
  }

  lemma OwnIsMentioned(p: string, r: Rule, subnet: string)
    requires IsPol(p) && PeerRule(r) && Own(r, subnet)
    ensures Mentions(p, r, subnet) && !Contains(Header(p), subnet)
  {
    hide Kind, Contains, Header, Line, Cidr;
    MentionsSubnet(p, r, subnet);
    ContainsOfEqualLength(subnet, subnet);
  }

  lemma NothingFirst(p: string, rules: seq<Rule>, subnet: string, n: nat)
    requires n == 0 || rules == []
    ensures OwnFirst(p, rules, subnet, n)
  {
  }

  lemma {:induction false} DropFirstIsWithoutIff(p: string, rules: seq<Rule>, subnet: string, n: nat)
    requires IsPol(p) && NoDup(rules) && CountOwn(rules, subnet) <= n && forall r :: r in rules ==> PeerRule(r)
    ensures DropFirst(p, rules, subnet, n) == WithoutSubnet(rules, subnet) <==> OwnFirst(p, rules, subnet, n)
  {
    hide Kind, Mentions, Cidr, OwnFirst;
    if n == 0 || rules == [] {
      NoneOwn(rules, subnet);
      WithoutSubnetAbsent(rules, subnet);
      NothingFirst(p, rules, subnet, n);
    } else {
      var r, rest := rules[0], rules[1..];
      assert PeerRule(r) && r !in rest;
      OwnFirstCons(p, rules, subnet, n);
      if Own(r, subnet) {
        OwnIsMentioned(p, r, subnet);
        DropFirstIsWithoutIff(p, rest, subnet, n - 1);
      } else {
        DropFirstIsWithoutIff(p, rest, subnet, n);
        DropFirstIsPart(p, rest, subnet, n - 1);
        var d, w := DropFirst(p, rest, subnet, n), WithoutSubnet(rest, subnet);
        assert ([r] + d)[1..] == d && ([r] + w)[1..] == w;
        assert ([r] + w)[0] == r;
      }
    }
  }

  lemma {:induction false} OwnAtMost(rules: seq<Rule>, subnet: string, left: set<Rule>)
    requires NoDup(rules) && forall r :: r in rules && Own(r, subnet) ==> r in left
    ensures CountOwn(rules, subnet) <= |left|
  {
    if rules != [] {
      OwnAtMost(rules[1..], subnet, if Own(rules[0], subnet) then left - {rules[0]} else left);
    }
  }

  lemma {:induction false} CountOwnPart(rules: seq<Rule>, subnet: string, i: nat)
    requires i <= |rules|
    ensures CountOwn(rules[..i], subnet) <= CountOwn(rules, subnet)
  {
    if i > 0 {
      CountOwnPart(rules[1..], subnet, i - 1);
      assert rules[..i][1..] == rules[1..][..i - 1];
    }
  }

  /** Without rules of the subnet itself there must be no lookalike at all. */
  lemma NoneOwnNoLookalike(p: string, rules: seq<Rule>, subnet: string)
    requires CountOwn(rules, subnet) == 0
    ensures OwnFirst(p, rules, subnet, 1) <==> OwnFirst(p, rules, subnet, 2)
  {
    hide Lookalike;
    forall i | 0 <= i < |rules| ensures CountOwn(rules[..i], subnet) == 0 { CountOwnPart(rules, subnet, i); }
  }

  /**
    Deleting by a subnet's text takes out just the subnet's own rules iff both
    of them stand before every other rule whose line holds that text: for every
    text, also a malformed subnet's.
   */
  lemma DropTwoIsWithoutSubnetIff(p: string, rules: seq<Rule>, subnet: string)
    requires IsPol(p) && PolicyRules(rules)
    ensures DropTwo(p, rules, subnet) == WithoutSubnet(rules, subnet) <==> OwnFirst(p, rules, subnet, 2)
  {
    hide Kind, Contains, Header, Cidr, DropFirst, WithoutSubnet, OwnFirst, Line;
    var own := {AcceptFrom(subnet), AcceptTo(subnet)};
    OwnAtMost(rules, subnet, own);
    if Contains(Header(p), subnet) {
      HeaderHitHasNoOwn(p, rules, subnet);
      DropFirstIsWithoutIff(p, rules, subnet, 1);
      NoneOwnNoLookalike(p, rules, subnet);
    } else {
      DropFirstIsWithoutIff(p, rules, subnet, 2);
    }
  }

  lemma HeaderHitHasNoOwn(p: string, rules: seq<Rule>, subnet: string)
    requires IsPol(p) && PolicyRules(rules) && Contains(Header(p), subnet)
    ensures CountOwn(rules, subnet) == 0
  {
    hide Kind, Contains, Header, Cidr;
    NoneOwn(rules, subnet);
    forall r | r in rules ensures !Own(r, subnet) {
      assert PeerRule(r);
      if Own(r, subnet) {
        OwnIsMentioned(p, r, subnet);
        assert false;
      }
    }
  }

  /** Deleting a network without a subnet takes out the first rule of the chain, whosever it is. */
  lemma EmptyTextDropsFirst(p: string, rules: seq<Rule>)
    ensures DropTwo(p, rules, "") == if rules == [] then [] else rules[1..]
  {
    hide Header, Line;
    assert OccursAt(Header(p), "", 0);
    if rules != [] {
      assert OccursAt(Line(p, rules[0]), "", 0);
      assert DropFirst(p, rules[1..], "", 0) == rules[1..];
    }
  }

  lemma InsertPeerKeepsPairs(t: Table, p: string, subnet: string, universe: string -> bool)
    requires Paired(t, universe) && IsPol(p) && (Cidr(subnet) ==> universe(subnet))
    ensures Paired(InsertPeer(t, p, subnet).0, universe)
  {
    hide Kind, Cidr;
    var t1 := InsertPeer(t, p, subnet).0;
    if p in t && Cidr(subnet) {
      assert PairedRules(t[p], universe);
      assert forall r :: r in t1[p] <==> r in t[p] || r == AcceptFrom(subnet) || r == AcceptTo(subnet);
      assert PairedRules(t1[p], universe);
    }
  }
}
