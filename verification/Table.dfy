/**
  The filter table as a map from chain names to rules: what each iptables
  command does to it, and what each operation of the policy controller's
  iptables wrapper amounts to.
 */
module Tables {
  import opened Text
  import opened Rules

  type Table = map<string, seq<Rule>>

  /** An iptables command succeeds, or fails with an exit status and changes nothing. */
  datatype Reply = Done | Fail(status: nat)

  // ---------- Commands ----------

  /** The command line parses: the target exists and the subnet is one iptables takes. */
  predicate Loadable(t: Table, r: Rule) {
    MatchOk(r.on) && (r.target in t || r.target == ACCEPT || r.target == REJECT)
  }

  predicate Referenced(t: Table, c: string) {
    exists d :: d in t && exists i :: 0 <= i < |t[d]| && t[d][i].target == c
  }

  function Listing(t: Table, c: string): seq<string>
    requires c in t
  {
    [Header(c)] + seq(|t[c]|, i requires 0 <= i < |t[c]| => Line(c, t[c][i]))
  }

  function ClearChain(t: Table, c: string): Table { t[c := []] }

  function DeleteChain(t: Table, c: string): (Table, Reply) {
    if c !in t || t[c] != [] || Referenced(t, c) then (t, Fail(1)) else (t - {c}, Done)
  }

  function RemoveAt<T>(s: seq<T>, i: nat): seq<T>
    requires i < |s|
  {
    s[..i] + s[i + 1..]
  }

  /** `-D chain number`; a number outside 1..len changes nothing. */
  function RemoveNumber(s: seq<Rule>, n: int): seq<Rule> {
    if 1 <= n <= |s| then RemoveAt(s, n - 1) else s
  }

  function DeleteNumber(t: Table, c: string, n: int): (Table, Reply) {
    if c in t && 1 <= n <= |t[c]| then (t[c := RemoveAt(t[c], n - 1)], Done)
    else (t, Fail(if n < 1 then 2 else 1))
  }

  function AppendUnique(t: Table, c: string, r: Rule): (Table, Reply) {
    if !Loadable(t, r) then (t, Fail(2))
    else if c !in t then (t, Fail(1))
    else if r in t[c] then (t, Done)
    else (t[c := t[c] + [r]], Done)
  }

  function Insert(t: Table, c: string, pos: int, r: Rule): (Table, Reply) {
    if !Loadable(t, r) || pos < 1 then (t, Fail(2))
    else if c !in t || pos > |t[c]| + 1 then (t, Fail(1))
    else (t[c := t[c][..pos - 1] + [r] + t[c][pos - 1..]], Done)
  }

  // ---------- The controller's own operations ----------

  /** Puts a rule at a position of a chain unless the chain has it; exit status 1 is swallowed. */
  function InsertNew(t: Table, c: string, pos: int, r: Rule): (Table, Reply) {
    if !Loadable(t, r) then (t, Fail(2))
    else if c in t && r in t[c] then (t, Done)
    else
      var (t1, e) := Insert(t, c, pos, r);
      (t1, if e == Fail(1) then Done else e)
  }

  /** `InsertNew` as the handlers use it: at the front. */
  function InsertFirst(t: Table, c: string, r: Rule): (Table, Reply) {
    if !Loadable(t, r) then (t, Fail(2))
    else if c !in t || r in t[c] then (t, Done)
    else (t[c := [r] + t[c]], Done)
  }

  lemma InsertNewAtFront(t: Table, c: string, r: Rule)
    ensures InsertNew(t, c, 1, r) == InsertFirst(t, c, r)
  {
    if c in t { assert t[c][..0] + [r] + t[c][0..] == [r] + t[c]; }
  }

  /** An inserted rule stands at its position, between the rules that were before and behind it. */
  lemma InsertMeans(t: Table, c: string, pos: int, r: Rule)
    requires Loadable(t, r) && c in t && 1 <= pos <= |t[c]| + 1
    ensures var (u, e) := Insert(t, c, pos, r);
            && e == Done && u.Keys == t.Keys && (forall d :: d in t && d != c ==> u[d] == t[d])
            && |u[c]| == |t[c]| + 1 && u[c][pos - 1] == r
            && forall i :: 0 <= i < |t[c]| ==> u[c][if i < pos - 1 then i else i + 1] == t[c][i]
  {
  }

  /** A rule deleted by its number is gone, and those behind it move up. */
  lemma DeleteMeans(t: Table, c: string, n: int)
    requires c in t && 1 <= n <= |t[c]|
    ensures var (u, e) := DeleteNumber(t, c, n);
            && e == Done && u.Keys == t.Keys && (forall d :: d in t && d != c ==> u[d] == t[d])
            && |u[c]| == |t[c]| - 1
            && forall i :: 0 <= i < |u[c]| ==> u[c][i] == t[c][if i < n - 1 then i else i + 1]
  {
  }

  /** Flush, then delete: a chain somebody still jumps to stays behind empty. */
  function FlushDelete(t: Table, c: string): (Table, Reply) {
    DeleteChain(ClearChain(t, c), c)
  }

  /** A fresh network chain that rejects everything, and the two base rules that lead to it. */
  function AddNetwork(t: Table, c: string, subnet: string): (Table, string, Reply) {
    var (t1, e1) := AppendUnique(ClearChain(t, c), c, REJECT_ALL);
    if e1.Fail? then (t1, "", e1) else
    var (t2, e2) := AppendUnique(t1, BASE, Rule(Dst(subnet), c));
    if e2.Fail? then (t2, "", e2) else
    var (t3, e3) := AppendUnique(t2, BASE, Rule(Src(subnet), c));
    if e3.Fail? then (t3, "", e3) else (t3, c, Done)
  }

  /** The rules left when the first `n` whose line holds `text` are taken out. */
  function DropFirst(chain: string, rules: seq<Rule>, text: string, n: nat): seq<Rule> {
    if rules == [] || n == 0 then rules
    else if Mentions(chain, rules[0], text) then DropFirst(chain, rules[1..], text, n - 1)
    else [rules[0]] + DropFirst(chain, rules[1..], text, n)
  }

  /** Two hits are spent; a hit on the header line is spent without effect. */
  function DropTwo(chain: string, rules: seq<Rule>, text: string): seq<Rule> {
    DropFirst(chain, rules, text, if Contains(Header(chain), text) then 1 else 2)
  }

  function RemoveNetwork(t: Table, c: string): (Table, Reply) {
    if BASE !in t then (t, Fail(1))
    else FlushDelete(t[BASE := DropTwo(BASE, t[BASE], c)], c)
  }

  /** Deleting by the numbers of a listing that is not refreshed in between. */
  function StaleDeletes(rules: seq<Rule>, lines: seq<string>, text: string): seq<Rule> {
    if lines == [] then rules
    else
      var before := StaleDeletes(rules, lines[..|lines| - 1], text);
      if Contains(lines[|lines| - 1], text) then RemoveNumber(before, |lines| - 1) else before
  }

  /** Some line of the listing keeps a policy jump other than the one searched for. */
  predicate KeepsPolicy(lines: seq<string>, text: string) {
    exists i :: 0 <= i < |lines| && !Contains(lines[i], text) && Contains(lines[i], POLICY_PREFIX)
  }

  function RemoveJump(t: Table, c: string, text: string): (Table, Reply) {
    if c !in t then (t, Fail(1))
    else
      var lines := Listing(t, c);
      var t1 := t[c := StaleDeletes(t[c], lines, text)];
      if KeepsPolicy(lines, text) then (t1, Done) else RemoveNetwork(t1, c)
  }

  /** Accept rules for one peer subnet in both directions. */
  function InsertPeer(t: Table, c: string, subnet: string): (Table, Reply) {
    var (t1, e1) := AppendUnique(t, c, AcceptFrom(subnet));
    if e1.Fail? then (t1, e1) else AppendUnique(t1, c, AcceptTo(subnet))
  }

  /** What starting the controller does: an empty base chain, reached from FORWARD. */
  function Restart(t: Table): (Table, Reply) {
    var t1 := ClearChain(t, BASE);
    if FORWARD in t1 && Jump(BASE) in t1[FORWARD] then (t1, Done)
    else Insert(t1, FORWARD, 1, Jump(BASE))
  }
}
