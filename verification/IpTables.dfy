/**
  The iptables wrapper of the network-policy controller.  The first group of
  methods is the go-iptables command set it is built on; the second group is
  the wrapper itself.  Each method is proved to do to the table exactly what
  the matching function of `Tables` says.
 */
module IpTablesWrapper {
  import opened Text
  import opened Rules
  import opened Tables

  class IpTables {
    const md5: string -> Digest
    var chains: Table

    constructor (md5: string -> Digest, chains: Table)
      ensures this.chains == chains && this.md5 == md5
    {
      this.md5 := md5;
      this.chains := chains;
    }

    // ---------- go-iptables ----------

    method List(chain: string) returns (lines: seq<string>, err: Reply)
      ensures chain in chains ==> err == Done && lines == Listing(chains, chain)
      ensures chain !in chains ==> err == Fail(1) && lines == []
    {
      if chain in chains {
        return Listing(chains, chain), Done;
      }
      return [], Fail(1);
    }

    method Exists(chain: string, r: Rule) returns (found: bool, err: Reply)
      ensures err == if Loadable(chains, r) then Done else Fail(2)
      ensures found <==> Loadable(chains, r) && chain in chains && r in chains[chain]
    {
      if !Loadable(chains, r) {
        return false, Fail(2);
      }
      return chain in chains && r in chains[chain], Done;
    }

    method Clear(chain: string)
      modifies this
      ensures chains == ClearChain(old(chains), chain)
    {
      chains := ClearChain(chains, chain);
    }

    method Append(chain: string, r: Rule) returns (err: Reply)
      modifies this
      ensures (chains, err) == AppendUnique(old(chains), chain, r)
    {
      var found, e := Exists(chain, r);
      if e.Fail? {
        return e;
      }
      if !found {
        if chain !in chains {
          return Fail(1);
        }
        chains := chains[chain := chains[chain] + [r]];
      }
      return Done;
    }

    method InsertAt(chain: string, pos: int, r: Rule) returns (err: Reply)
      modifies this
      ensures (chains, err) == Insert(old(chains), chain, pos, r)
    {
      var (t, e) := Insert(chains, chain, pos, r);
      chains, err := t, e;
    }

    method Delete(chain: string, number: int) returns (err: Reply)
      modifies this
      ensures (chains, err) == DeleteNumber(old(chains), chain, number)
    {
      var (t, e) := DeleteNumber(chains, chain, number);
      chains, err := t, e;
    }

    method DeleteEmptyChain(chain: string) returns (err: Reply)
      modifies this
      ensures (chains, err) == DeleteChain(old(chains), chain)
    {
      if chain !in chains || chains[chain] != [] {
        return Fail(1);
      }
      if Referenced(chains, chain) {
        return Fail(1);
      }
      chains := chains - {chain};
      return Done;
    }

    // ---------- The wrapper ----------

    method CreateBaseChain() returns (err: Reply)
      modifies this
      ensures (chains, err) == Restart(old(chains))
    {
      Clear(BASE);
      var found, e := Exists(FORWARD, Jump(BASE));
      if e.Fail? {
        return e;
      }
      if !found {
        err := InsertAt(FORWARD, 1, Jump(BASE));
        return;
      }
      return Done;
    }

    method ExistsChain(chain: string) returns (found: bool)
      ensures found <==> chain in chains
    {
      var _, err := List(chain);
      if err.Fail? {
        return err.status != 1;
      }
      return true;
    }

    method AddPolicyChain(name: string, namespace: string) returns (chain: string)
      modifies this
      ensures chain == PolName(md5, name, namespace)
      ensures chains == ClearChain(old(chains), chain)
    {
      chain := PolName(md5, name, namespace);
      Clear(chain);
    }

    method AddNetworkChain(name: string, namespace: string, subnet: string) returns (chain: string, err: Reply)
      modifies this
      ensures (chains, chain, err) == AddNetwork(old(chains), NetName(md5, name, namespace), subnet)
    {
      var c := NetName(md5, name, namespace);
      Clear(c);
      err := Append(c, REJECT_ALL);
      if err.Fail? {
        return "", err;
      }
      var found: bool;
      found, err := Exists(BASE, Rule(Dst(subnet), c));
      if err.Fail? {
        return "", err;
      }
      if !found {
        err := Append(BASE, Rule(Dst(subnet), c));
        if err.Fail? {
          return "", err;
        }
      }
      found, err := Exists(BASE, Rule(Src(subnet), c));
      if err.Fail? {
        return "", err;
      }
      if !found {
        err := Append(BASE, Rule(Src(subnet), c));
        if err.Fail? {
          return "", err;
        }
      }
      return c, Done;
    }

    /** Deletes by number the first two lines of a listing that hold `text`. */
    method DeleteHits(chain: string, lines: seq<string>, text: string)
      requires chain in chains
      modifies this
      ensures chains == old(chains)[chain := Sweep(lines, text, 0, 0, 0, old(chains)[chain])]
    {
      ghost var goal := Sweep(lines, text, 0, 0, 0, chains[chain]);
      var pos, cnt, k := 0, 0, 0;
      while k < |lines|
        invariant 0 <= k <= |lines| && 0 <= cnt < 2
        invariant chain in chains && chains == old(chains)[chain := chains[chain]]
        invariant Sweep(lines, text, k, pos, cnt, chains[chain]) == goal
      {
        if Contains(lines[k], text) {
          cnt := cnt + 1;
          var e := Delete(chain, pos);
          if e == Done {
            pos := pos - 1;
          }
        }
        if cnt == 2 {
          return;
        }
        pos := pos + 1;
        k := k + 1;
      }
    }

    /** Lists a chain and deletes its first two rules whose lines hold `text`. */
    method DeleteFirstTwo(chain: string, text: string) returns (err: Reply)
      modifies this
      ensures chain !in old(chains) ==> err == Fail(1) && chains == old(chains)
      ensures chain in old(chains) ==>
                err == Done && chains == old(chains)[chain := DropTwo(chain, old(chains)[chain], text)]
    {
      var lines: seq<string>;
      lines, err := List(chain);
      if err.Fail? {
        return;
      }
      SweepDropsTwo(chains, chain, text);
      DeleteHits(chain, lines, text);
    }

    method DeleteNetworkChain(chain: string) returns (err: Reply)
      modifies this
      ensures (chains, err) == RemoveNetwork(old(chains), chain)
    {
      err := DeleteFirstTwo(BASE, chain);
      if err.Fail? {
        return;
      }
      err := DeleteIptableChain(chain);
    }

    method InsertRule(chain: string, pos: int, r: Rule) returns (err: Reply)
      modifies this
      ensures (chains, err) == InsertNew(old(chains), chain, pos, r)
    {
      var found: bool;
      found, err := Exists(chain, r);
      if err.Fail? {
        return;
      }
      if !found {
        err := InsertAt(chain, pos, r);
        if err.Fail? && err.status != 1 {
          return;
        }
      }
      return Done;
    }

    /** Deletes by number every line of a listing that holds `text`; says whether a policy jump is left. */
    method DeleteMatching(chain: string, lines: seq<string>, text: string) returns (cnt: nat)
      requires chain in chains
      modifies this
      ensures chains == old(chains)[chain := StaleDeletes(old(chains)[chain], lines, text)]
      ensures cnt == 0 <==> !KeepsPolicy(lines, text)
    {
      cnt := 0;
      for pos := 0 to |lines|
        invariant chain in chains
        invariant chains == old(chains)[chain := StaleDeletes(old(chains)[chain], lines[..pos], text)]
        invariant cnt == 0 <==> !KeepsPolicy(lines[..pos], text)
      {
        assert lines[..pos + 1][..pos] == lines[..pos];
        KeepsPolicyStep(lines, pos, text);
        if Contains(lines[pos], text) {
          var _ := Delete(chain, pos);
        } else if cnt < 1 && Contains(lines[pos], POLICY_PREFIX) {
          cnt := cnt + 1;
        }
      }
      assert lines[..|lines|] == lines;
    }

    method DeleteNetworkChainRule(chain: string, text: string) returns (err: Reply)
      modifies this
      ensures (chains, err) == RemoveJump(old(chains), chain, text)
    {
      var lines: seq<string>;
      lines, err := List(chain);
      if err.Fail? {
        return;
      }
      var cnt := DeleteMatching(chain, lines, text);
      if cnt == 0 {
        err := DeleteNetworkChain(chain);
      }
    }

    method DeleteIptableChain(chain: string) returns (err: Reply)
      modifies this
      ensures (chains, err) == FlushDelete(old(chains), chain)
    {
      Clear(chain);
      err := DeleteEmptyChain(chain);
    }

    /** The two accept rules of a peer subnet. */
    method InsertPeerRule(chain: string, subnet: string) returns (err: Reply)
      modifies this
      ensures (chains, err) == InsertPeer(old(chains), chain, subnet)
    {
      err := Append(chain, AcceptFrom(subnet));
      if err.Fail? {
        return;
      }
      err := Append(chain, AcceptTo(subnet));
    }
  }

  /** What the numbered deletions leave, from line `k` of the listing on. */
  ghost function Sweep(lines: seq<string>, text: string, k: nat, pos: int, cnt: nat, now: seq<Rule>): seq<Rule>
    requires k <= |lines|
    decreases |lines| - k
  {
    if k == |lines| then now
    else if !Contains(lines[k], text) then Sweep(lines, text, k + 1, pos + 1, cnt, now)
    else if cnt + 1 == 2 then RemoveNumber(now, pos)
    else Sweep(lines, text, k + 1, if 1 <= pos <= |now| then pos else pos + 1, cnt + 1, RemoveNumber(now, pos))
  }

  /** The numbers always name the right rules: the sweep takes out the first two hits and nothing else. */
  lemma SweepDropsTwo(t: Table, chain: string, text: string)
    requires chain in t
    ensures Sweep(Listing(t, chain), text, 0, 0, 0, t[chain]) == DropTwo(chain, t[chain], text)
  {
    var rules, lines := t[chain], Listing(t, chain);
    var hit := Contains(Header(chain), text);
    assert rules[0..] == rules && rules[..0] + DropTwo(chain, rules, text) == DropTwo(chain, rules, text);
    SweepFrom(chain, rules, lines, text, if hit then 1 else 2, 1, 1, if hit then 1 else 0, rules);
  }

  lemma {:induction false} SweepFrom(chain: string, rules: seq<Rule>, lines: seq<string>, text: string,
                                     budget: nat, k: nat, pos: int, cnt: nat, now: seq<Rule>)
    requires |lines| == |rules| + 1 && 1 <= k <= |lines| && cnt < 2
    requires forall i :: 0 <= i < |rules| ==> lines[i + 1] == Line(chain, rules[i])
    requires Progress(chain, rules, text, budget, k, pos, cnt, now)
    ensures Sweep(lines, text, k, pos, cnt, now) == DropFirst(chain, rules, text, budget)
    decreases |lines| - k
  {
    if k == |lines| {
      assert rules[|rules|..] == [];
      assert now[..pos - 1] + [] == now;
    } else {
      assert lines[(k - 1) + 1] == Line(chain, rules[k - 1]);
      if Mentions(chain, rules[k - 1], text) {
        DropOne(chain, rules, text, budget, k, pos, cnt, now);
        if cnt == 0 {
          SweepFrom(chain, rules, lines, text, budget, k + 1, pos, cnt + 1, RemoveAt(now, pos - 1));
        }
      } else {
        KeepOne(chain, rules, text, budget, k, pos, cnt, now);
        SweepFrom(chain, rules, lines, text, budget, k + 1, pos + 1, cnt, now);
      }
    }
  }

  /**
    Between two lines of the listing: `pos` is the line's index less the
    deletions done, the rules already passed over stand before it, and the
    deletions still due concern the rest.
   */
  ghost predicate Progress(chain: string, rules: seq<Rule>, text: string, budget: nat, k: nat, pos: int, cnt: nat,
                           now: seq<Rule>)
    requires k <= |rules| + 1
  {
    && 1 <= pos <= k && cnt <= 2
    && (budget == 2 ==> pos == k - cnt) && (budget == 1 ==> cnt == 1 && pos == k)
    && 1 <= budget <= 2
    && pos - 1 + |rules| + 1 - k == |now|
    && now[pos - 1..] == rules[k - 1..]
    && now[..pos - 1] + DropFirst(chain, rules[k - 1..], text, 2 - cnt) == DropFirst(chain, rules, text, budget)
  }

  lemma DropOne(chain: string, rules: seq<Rule>, text: string, budget: nat, k: nat, pos: int, cnt: nat, now: seq<Rule>)
    requires 1 <= k <= |rules| && cnt < 2 && Progress(chain, rules, text, budget, k, pos, cnt, now)
    requires Mentions(chain, rules[k - 1], text)
    ensures pos <= |now|
    ensures cnt == 1 ==> RemoveAt(now, pos - 1) == DropFirst(chain, rules, text, budget)
    ensures cnt == 0 ==> Progress(chain, rules, text, budget, k + 1, pos, cnt + 1, RemoveAt(now, pos - 1))
  {
    hide Mentions;
    var rest := rules[k - 1..];
    assert rest[0] == rules[k - 1] && rest[1..] == rules[k..];
    assert now[pos..] == rest[1..] by { assert now[pos - 1..][1..] == now[pos..]; }
    var after := RemoveAt(now, pos - 1);
    assert after[pos - 1..] == rules[k..] && after[..pos - 1] == now[..pos - 1];
    assert after == now[..pos - 1] + rules[k..];
    assert DropFirst(chain, rest, text, 2 - cnt) == DropFirst(chain, rules[k..], text, 1 - cnt);
  }

  lemma KeepOne(chain: string, rules: seq<Rule>, text: string, budget: nat, k: nat, pos: int, cnt: nat, now: seq<Rule>)
    requires 1 <= k <= |rules| && cnt < 2 && Progress(chain, rules, text, budget, k, pos, cnt, now)
    requires !Mentions(chain, rules[k - 1], text)
    ensures Progress(chain, rules, text, budget, k + 1, pos + 1, cnt, now)
  {
    hide Mentions;
    var rest := rules[k - 1..];
    assert rest[0] == rules[k - 1] && rest[1..] == rules[k..];
    assert now[pos - 1] == now[pos - 1..][0] == rest[0];
    assert now[..pos] == now[..pos - 1] + [rest[0]];
    assert now[pos..] == rest[1..] by { assert now[pos - 1..][1..] == now[pos..]; }
    assert now[..pos] + DropFirst(chain, rules[k..], text, 2 - cnt)
        == now[..pos - 1] + ([rest[0]] + DropFirst(chain, rules[k..], text, 2 - cnt));
  }

  lemma KeepsPolicyStep(lines: seq<string>, pos: nat, text: string)
    requires pos < |lines|
    ensures KeepsPolicy(lines[..pos + 1], text) <==>
            (KeepsPolicy(lines[..pos], text) || (!Contains(lines[pos], text) && Contains(lines[pos], POLICY_PREFIX)))
  {
    var now, before := lines[..pos + 1], lines[..pos];
    if KeepsPolicy(before, text) {
      var i :| 0 <= i < |before| && !Contains(before[i], text) && Contains(before[i], POLICY_PREFIX);
      assert now[i] == before[i];
    }
    if !Contains(lines[pos], text) && Contains(lines[pos], POLICY_PREFIX) {
      assert now[pos] == lines[pos];
    }
    if KeepsPolicy(now, text) {
      var i :| 0 <= i < |now| && !Contains(now[i], text) && Contains(now[i], POLICY_PREFIX);
      if i < pos { assert before[i] == now[i]; }
    }
  }
}
