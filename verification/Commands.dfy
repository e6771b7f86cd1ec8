/**
  The iptables commands that the wrapper's operations issue, and what every one
  of them keeps, even in the middle of an operation: a network chain can be
  without its REJECT there, but the three layers stay and no rule dangles.
 */
module Commands {
  import opened Text
  import opened Rules
  import opened Tables
  import opened IpTablesWrapper
  import opened Invariant
  import opened Safety

  // ---------- Commands ----------

  /** `Append` is a check followed by an append of a rule that is not there yet. */
  datatype Command =
    | Flush(chain: string)
    | Append(chain: string, rule: Rule)
    | InsertAt(chain: string, pos: int, rule: Rule)
    | DeleteAt(chain: string, number: int)
    | Drop(chain: string)

  function Exec(t: Table, cmd: Command): Table {
    match cmd
    case Flush(c) => ClearChain(t, c)
    case Append(c, r) => AppendUnique(t, c, r).0
    case InsertAt(c, pos, r) => Insert(t, c, pos, r).0
    case DeleteAt(c, n) => DeleteNumber(t, c, n).0
    case Drop(c) => DeleteChain(t, c).0
  }

  function ExecAll(t: Table, cmds: seq<Command>): Table
    decreases |cmds|
  {
    if cmds == [] then t else ExecAll(Exec(t, cmds[0]), cmds[1..])
  }

  /** The rule has its place in a chain of that kind. */
  ghost predicate Fits(c: string, r: Rule) {
    match Kind(c)
    case BaseChain => !r.on.Any? && IsNet(r.target)
    case NetworkChain => r == REJECT_ALL || (r.on.Any? && IsPol(r.target))
    case PolicyChain => !r.on.Any? && r.target == ACCEPT
    case ForeignChain => c == ""
  }

  /** The commands that the controller ever issues: on its own chains, with rules that fit. */
  ghost predicate Typed(cmd: Command) {
    match cmd
    case Flush(c) => Kind(c) != ForeignChain
    case Append(c, r) => Fits(c, r)
    case InsertAt(c, _, r) => Fits(c, r)
    case DeleteAt(c, _) => Kind(c) != ForeignChain
    case Drop(c) => IsNet(c) || IsPol(c)
  }

  ghost predicate AllTyped(cmds: seq<Command>) {
    forall i :: 0 <= i < |cmds| ==> Typed(cmds[i])
  }

  /** The commands lead from one table to the other. */
  ghost predicate Leads(t: Table, cmds: seq<Command>, u: Table) {
    AllTyped(cmds) && ExecAll(t, cmds) == u
  }

  lemma {:induction false} LeadsOn(t: Table, a: seq<Command>, u: Table, b: seq<Command>, v: Table)
    requires Leads(t, a, u) && Leads(u, b, v)
    ensures Leads(t, a + b, v)
    decreases |a|
  {
    hide Exec, Typed;
    if a == [] {
      assert a + b == b;
    } else {
      assert (a + b)[0] == a[0] && (a + b)[1..] == a[1..] + b;
      LeadsOn(Exec(t, a[0]), a[1..], u, b, v);
    }
  }

  lemma OneLeads(t: Table, cmd: Command)
    requires Typed(cmd)
    ensures Leads(t, [cmd], Exec(t, cmd))
  {
    hide Exec, Typed;
    assert [cmd][1..] == [];
    assert ExecAll(t, [cmd]) == ExecAll(Exec(t, cmd), []) == Exec(t, cmd);
  }

  lemma NoneLeads(t: Table)
    ensures Leads(t, [], t)
  {
  }

  // ---------- Wrapper operations ----------

  function AddNetworkCommands(t: Table, c: string, subnet: string): seq<Command> {
    var (t1, e1) := AppendUnique(ClearChain(t, c), c, REJECT_ALL);
    var first := [Flush(c), Append(c, REJECT_ALL)];
    if e1.Fail? then first
    else if AppendUnique(t1, BASE, Rule(Dst(subnet), c)).1.Fail? then first + [Append(BASE, Rule(Dst(subnet), c))]
    else first + [Append(BASE, Rule(Dst(subnet), c)), Append(BASE, Rule(Src(subnet), c))]
  }

  lemma AddNetworkLeads(t: Table, c: string, subnet: string)
    requires IsNet(c)
    ensures Leads(t, AddNetworkCommands(t, c, subnet), AddNetwork(t, c, subnet).0)
  {
    hide Kind, AppendUnique, Leads, AllTyped;
    KindFacts();
    var dst, src := Append(BASE, Rule(Dst(subnet), c)), Append(BASE, Rule(Src(subnet), c));
    var t0 := ClearChain(t, c);
    var t1 := Exec(t0, Append(c, REJECT_ALL));
    OneLeads(t, Flush(c));
    OneLeads(t0, Append(c, REJECT_ALL));
    LeadsOn(t, [Flush(c)], t0, [Append(c, REJECT_ALL)], t1);
    OneLeads(t1, dst);
    OneLeads(Exec(t1, dst), src);
    LeadsOn(t1, [dst], Exec(t1, dst), [src], Exec(Exec(t1, dst), src));
    var first := [Flush(c), Append(c, REJECT_ALL)];
    assert [Flush(c)] + [Append(c, REJECT_ALL)] == first && [dst] + [src] == [dst, src];
    LeadsOn(t, first, t1, [dst], Exec(t1, dst));
    LeadsOn(t, first, t1, [dst, src], Exec(Exec(t1, dst), src));
  }

  function InsertCommands(t: Table, c: string, r: Rule): seq<Command> {
    if Loadable(t, r) && !(c in t && r in t[c]) then [InsertAt(c, 1, r)] else []
  }

  lemma InsertLeads(t: Table, c: string, r: Rule)
    requires Fits(c, r)
    ensures Leads(t, InsertCommands(t, c, r), InsertFirst(t, c, r).0)
  {
    hide Kind, Leads, Fits, Loadable;
    InsertNewAtFront(t, c, r);
    NoneLeads(t);
    OneLeads(t, InsertAt(c, 1, r));
  }

  function PeerCommands(t: Table, p: string, subnet: string): seq<Command> {
    if AppendUnique(t, p, AcceptFrom(subnet)).1.Fail? then [Append(p, AcceptFrom(subnet))]
    else [Append(p, AcceptFrom(subnet)), Append(p, AcceptTo(subnet))]
  }

  lemma PeerLeads(t: Table, p: string, subnet: string)
    requires IsPol(p)
    ensures Leads(t, PeerCommands(t, p, subnet), InsertPeer(t, p, subnet).0)
  {
    hide Kind, AppendUnique, Leads;
    var from, to := Append(p, AcceptFrom(subnet)), Append(p, AcceptTo(subnet));
    OneLeads(t, from);
    OneLeads(Exec(t, from), to);
    LeadsOn(t, [from], Exec(t, from), [to], Exec(Exec(t, from), to));
    assert [from] + [to] == [from, to];
  }

  function RetireCommands(c: string): seq<Command> { [Flush(c), Drop(c)] }

  lemma RetireLeads(t: Table, c: string)
    requires IsNet(c) || IsPol(c)
    ensures Leads(t, RetireCommands(c), FlushDelete(t, c).0)
  {
    hide Kind, Leads, DeleteChain;
    OneLeads(t, Flush(c));
    OneLeads(ClearChain(t, c), Drop(c));
    LeadsOn(t, [Flush(c)], ClearChain(t, c), [Drop(c)], FlushDelete(t, c).0);
    assert [Flush(c)] + [Drop(c)] == RetireCommands(c);
  }

  /** The numbered deletions of the first two hits, from line `k` of the listing on. */
  ghost function SweepCommands(chain: string, lines: seq<string>, text: string, k: nat, pos: int, cnt: nat,
                               now: seq<Rule>)
    : seq<Command>
    requires k <= |lines|
    decreases |lines| - k
  {
    if k == |lines| then []
    else if !Contains(lines[k], text) then SweepCommands(chain, lines, text, k + 1, pos + 1, cnt, now)
    else if cnt + 1 == 2 then [DeleteAt(chain, pos)]
    else
      var next := if 1 <= pos <= |now| then pos else pos + 1;
      [DeleteAt(chain, pos)] + SweepCommands(chain, lines, text, k + 1, next, cnt + 1, RemoveNumber(now, pos))
  }

  lemma DeleteAtIs(t: Table, chain: string, n: int)
    requires chain in t
    ensures Exec(t, DeleteAt(chain, n)) == t[chain := RemoveNumber(t[chain], n)]
  {
    assert t[chain := t[chain]] == t;
  }

  lemma {:induction false} SweepLeads(t: Table, chain: string, lines: seq<string>, text: string, k: nat, pos: int,
                                      cnt: nat)
    requires k <= |lines| && chain in t && Kind(chain) != ForeignChain
    ensures Leads(t, SweepCommands(chain, lines, text, k, pos, cnt, t[chain]),
                  t[chain := Sweep(lines, text, k, pos, cnt, t[chain])])
    decreases |lines| - k
  {
    hide Kind, Contains, Leads, Exec, RemoveNumber;
    assert t[chain := t[chain]] == t;
    NoneLeads(t);
    if k < |lines| {
      if !Contains(lines[k], text) {
        SweepLeads(t, chain, lines, text, k + 1, pos + 1, cnt);
      } else {
        var cmd := DeleteAt(chain, pos);
        OneLeads(t, cmd);
        DeleteAtIs(t, chain, pos);
        if cnt + 1 != 2 {
          var t1 := Exec(t, cmd);
          var next := if 1 <= pos <= |t[chain]| then pos else pos + 1;
          SweepLeads(t1, chain, lines, text, k + 1, next, cnt + 1);
          var rest := SweepCommands(chain, lines, text, k + 1, next, cnt + 1, t1[chain]);
          var now := Sweep(lines, text, k + 1, next, cnt + 1, t1[chain]);
          LeadsOn(t, [cmd], t1, rest, t1[chain := now]);
          assert t1[chain := now] == t[chain := now];
        }
      }
    }
  }

  ghost function DropTwoCommands(t: Table, chain: string, text: string): seq<Command>
    requires chain in t
  {
    SweepCommands(chain, Listing(t, chain), text, 0, 0, 0, t[chain])
  }

  lemma DropTwoLeads(t: Table, chain: string, text: string)
    requires chain in t && Kind(chain) != ForeignChain
    ensures Leads(t, DropTwoCommands(t, chain, text), t[chain := DropTwo(chain, t[chain], text)])
  {
    hide Kind, Leads, Listing, Sweep, SweepCommands, DropTwo;
    SweepDropsTwo(t, chain, text);
    SweepLeads(t, chain, Listing(t, chain), text, 0, 0, 0);
  }

  ghost function RemoveNetworkCommands(t: Table, c: string): seq<Command> {
    if BASE !in t then [] else DropTwoCommands(t, BASE, c) + RetireCommands(c)
  }

  lemma RemoveNetworkLeads(t: Table, c: string)
    requires IsNet(c)
    ensures Leads(t, RemoveNetworkCommands(t, c), RemoveNetwork(t, c).0)
  {
    hide Kind, Leads, DropTwoCommands, RetireCommands, DropTwo, FlushDelete;
    KindFacts();
    NoneLeads(t);
    if BASE in t {
      var t1 := t[BASE := DropTwo(BASE, t[BASE], c)];
      DropTwoLeads(t, BASE, c);
      RetireLeads(t1, c);
      LeadsOn(t, DropTwoCommands(t, BASE, c), t1, RetireCommands(c), FlushDelete(t1, c).0);
    }
  }

  function StaleCommands(c: string, lines: seq<string>, text: string): seq<Command> {
    if lines == [] then []
    else
      var before := StaleCommands(c, lines[..|lines| - 1], text);
      if Contains(lines[|lines| - 1], text) then before + [DeleteAt(c, |lines| - 1)] else before
  }

  lemma {:induction false} StaleLeads(t: Table, c: string, lines: seq<string>, text: string)
    requires c in t && Kind(c) != ForeignChain
    ensures Leads(t, StaleCommands(c, lines, text), t[c := StaleDeletes(t[c], lines, text)])
  {
    hide Kind, Contains, Leads, Exec, RemoveNumber;
    assert t[c := t[c]] == t;
    NoneLeads(t);
    if lines != [] {
      var n := |lines| - 1;
      StaleLeads(t, c, lines[..n], text);
      if Contains(lines[n], text) {
        var t1 := t[c := StaleDeletes(t[c], lines[..n], text)];
        OneLeads(t1, DeleteAt(c, n));
        DeleteAtIs(t1, c, n);
        LeadsOn(t, StaleCommands(c, lines[..n], text), t1, [DeleteAt(c, n)], Exec(t1, DeleteAt(c, n)));
        var now := RemoveNumber(t1[c], n);
        assert t1[c := now] == t[c := now];
      }
    }
  }

  ghost function RemoveJumpCommands(t: Table, c: string, text: string): seq<Command> {
    if c !in t then []
    else
      var lines := Listing(t, c);
      var stale := StaleCommands(c, lines, text);
      if KeepsPolicy(lines, text) then stale
      else stale + RemoveNetworkCommands(t[c := StaleDeletes(t[c], lines, text)], c)
  }

  lemma RemoveJumpLeads(t: Table, c: string, text: string)
    requires IsNet(c)
    ensures Leads(t, RemoveJumpCommands(t, c, text), RemoveJump(t, c, text).0)
  {
    hide Kind, Leads, StaleCommands, RemoveNetworkCommands, StaleDeletes, RemoveNetwork, Listing, KeepsPolicy;
    NoneLeads(t);
    if c in t {
      var lines := Listing(t, c);
      var t1 := t[c := StaleDeletes(t[c], lines, text)];
      StaleLeads(t, c, lines, text);
      RemoveNetworkLeads(t1, c);
      LeadsOn(t, StaleCommands(c, lines, text), t1, RemoveNetworkCommands(t1, c), RemoveNetwork(t1, c).0);
    }
  }

  // ---------- The layers ----------

  ghost predicate LayerOk(t: Table, c: string)
    requires c in t
  {
    match Kind(c)
    case BaseChain => forall r :: r in t[c] ==> BaseRule(t, r)
    case NetworkChain => forall r :: r in t[c] ==> r == REJECT_ALL || PolicyJump(t, r)
    case PolicyChain => forall r :: r in t[c] ==> PeerRule(r)
    case ForeignChain => forall r :: r in t[c] ==> !IsNet(r.target) && !IsPol(r.target)
  }

  /**
    What is left of the invariant at any point between two commands: base rules
    lead to existing network chains, these jump to existing policy chains or
    reject, and policy chains only accept.  A network chain may lack its REJECT.
   */
  ghost predicate Layered(t: Table) {
    BASE in t && "" !in t && forall c :: c in t ==> LayerOk(t, c)
  }

  lemma ShapeIsLayered(t: Table)
    requires Shape(t)
    ensures Layered(t)
  {
    hide Kind;
    forall c | c in t ensures LayerOk(t, c) { assert ChainOk(t, c); }
  }

  /** A chain gets rules that fit and whose targets exist. */
  lemma NewRulesKeepLayers(t: Table, c: string, rules: seq<Rule>)
    requires Layered(t) && Kind(c) != ForeignChain
    requires forall r :: r in rules ==> (c in t && r in t[c]) || (Fits(c, r) && Loadable(t, r))
    ensures Layered(t[c := rules])
  {
    hide Kind, Cidr;
    KindFacts();
    var u := t[c := rules];
    assert c in t ==> LayerOk(t, c);
    forall d | d in u ensures LayerOk(u, d) {
      if d != c { assert LayerOk(t, d); }
    }
  }

  lemma DropKeepsLayers(t: Table, c: string)
    requires Layered(t) && (IsNet(c) || IsPol(c))
    ensures Layered(DeleteChain(t, c).0)
  {
    hide Kind, Cidr;
    KindFacts();
    var u := DeleteChain(t, c).0;
    if DeleteChain(t, c).1 == Done {
      forall d | d in u ensures LayerOk(u, d) {
        assert LayerOk(t, d);
        forall r | r in t[d] ensures r.target != c {
          var i :| 0 <= i < |t[d]| && t[d][i] == r;
          assert t[d][i].target == r.target;
        }
      }
    }
  }

  /** Every command the controller issues keeps the layers and leaves the chains of other software alone. */
  lemma CommandKeepsLayers(t: Table, cmd: Command)
    requires Layered(t) && Typed(cmd)
    ensures Layered(Exec(t, cmd)) && ForeignAs(Exec(t, cmd), t)
  {
    hide Kind, Cidr, Layered, Loadable;
    KindFacts();
    LayeredFacts(t);
    match cmd
    case Flush(c) => NewRulesKeepLayers(t, c, []);
    case Append(c, r) =>
      if Loadable(t, r) && c in t { NewRulesKeepLayers(t, c, t[c] + [r]); }
    case InsertAt(c, pos, r) =>
      if Loadable(t, r) && c in t && 1 <= pos <= |t[c]| + 1 {
        NewRulesKeepLayers(t, c, t[c][..pos - 1] + [r] + t[c][pos - 1..]);
      }
    case DeleteAt(c, n) =>
      if c in t && 1 <= n <= |t[c]| { NewRulesKeepLayers(t, c, RemoveAt(t[c], n - 1)); }
    case Drop(c) => DropKeepsLayers(t, c);
  }

  lemma LayeredFacts(t: Table)
    requires Layered(t)
    ensures BASE in t && "" !in t
  {
  }

  /** So they hold after any number of commands. */
  lemma {:induction false} CommandsKeepLayers(t: Table, cmds: seq<Command>)
    requires Layered(t) && AllTyped(cmds)
    ensures Layered(ExecAll(t, cmds)) && ForeignAs(ExecAll(t, cmds), t)
    decreases |cmds|
  {
    hide Kind, Layered, Exec, Typed;
    if cmds != [] {
      CommandKeepsLayers(t, cmds[0]);
      CommandsKeepLayers(Exec(t, cmds[0]), cmds[1..]);
    }
  }
}
