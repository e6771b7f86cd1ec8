/**
  Which policies the list for a network speaks of, and how often, told from
  the decoded entries of their annotations alone.
 */
module Membership {
  import opened Options
  import opened Sequences
  import opened Text
  import opened Rules
  import opened Handlers
  import opened PolicyListing

  // ---------- Policies and networks ----------

  /** Some entry of the policy's annotation has the network as its selector. */
  ghost predicate Selects(env: Env, q: PolicyObject, name: string) {
    && q.annotation != "" && env.parse(q.annotation).Some? && name != ""
    && exists i :: 0 <= i < |env.parse(q.annotation).value| && env.parse(q.annotation).value[i].selector == name
  }

  /** The peer is among the texts, up to surrounding blanks. */
  ghost predicate Lists(texts: seq<string>, peer: string) {
    exists j :: 0 <= j < |texts| && Trim(texts[j]) == peer
  }

  /** The peer is among the comma-separated peers of the entry, up to surrounding blanks. */
  ghost predicate EntryLists(e: Entry, peer: string) {
    Lists(Split(e.peers, ","), peer)
  }

  /** Some entry of the policy's annotation lists the peer for the given selector. */
  ghost predicate LetsIn(env: Env, q: PolicyObject, selector: string, peer: string) {
    && env.parse(q.annotation).Some? && selector != ""
    && exists i :: 0 <= i < |env.parse(q.annotation).value|
                   && env.parse(q.annotation).value[i].selector == selector
                   && EntryLists(env.parse(q.annotation).value[i], peer)
  }

  /** The policy does not select the network, but lists it as a peer of another one. */
  ghost predicate PeersOnly(env: Env, q: PolicyObject, name: string) {
    && q.annotation != "" && env.parse(q.annotation).Some? && name != "" && !Selects(env, q, name)
    && exists selector :: LetsIn(env, q, selector, name)
  }

  /** What a policy is listed as. */
  function EntryOf(env: Env, q: PolicyObject, selects: bool): PolicyInfo {
    PolicyInfo(q.name, q.namespace, if selects then Parse(env, q.annotation) else None)
  }

  lemma SelectsIsParsed(env: Env, q: PolicyObject, name: string)
    ensures Selects(env, q, name) <==>
            q.annotation != "" && Parse(env, q.annotation).Some? && name in Parse(env, q.annotation).value
  {
    hide Selectors;
    if env.parse(q.annotation).Some? { SelectorsMerge(env.parse(q.annotation).value, name); }
  }

  lemma ListsAppend(a: seq<string>, b: seq<string>, peer: string)
    ensures Lists(a + b, peer) <==> Lists(a, peer) || Lists(b, peer)
  {
    hide Trim;
    if j :| 0 <= j < |a + b| && Trim((a + b)[j]) == peer {
      if j >= |a| { assert (a + b)[j] == b[j - |a|]; }
    }
    if j :| 0 <= j < |a| && Trim(a[j]) == peer { assert (a + b)[j] == a[j]; }
    if j :| 0 <= j < |b| && Trim(b[j]) == peer { assert (a + b)[|a| + j] == b[j]; }
  }

  lemma {:induction false} PeersForLists(entries: seq<Entry>, selector: string, peer: string)
    ensures Lists(PeersFor(entries, selector), peer) <==>
            exists i :: 0 <= i < |entries| && entries[i].selector == selector && EntryLists(entries[i], peer)
  {
    hide Split, Lists;
    if entries == [] {
      NothingLists(peer);
    } else {
      var e, n := Last(entries), |entries| - 1;
      PeersForLists(Init(entries), selector, peer);
      assert entries[n] == e && forall i :: 0 <= i < n ==> Init(entries)[i] == entries[i];
      ListsAppend(PeersFor(Init(entries), selector), Split(e.peers, ","), peer);
    }
  }

  lemma NothingLists(peer: string)
    ensures !Lists([], peer)
  {
  }

  /** The peers of a selector in the merged map are those of the entries. */
  lemma IsPeerMeans(env: Env, q: PolicyObject, selector: string, peer: string)
    requires Parse(env, q.annotation).Some? && selector != ""
    ensures IsPeer(Parse(env, q.annotation).value, selector, peer) <==> LetsIn(env, q, selector, peer)
  {
    hide Trim, Split, Selectors, EntryLists;
    var entries := env.parse(q.annotation).value;
    SelectorsMerge(entries, selector);
    PeersForLists(entries, selector, peer);
  }

  lemma LetsInNeedsSelector(env: Env, q: PolicyObject, selector: string, peer: string)
    requires LetsIn(env, q, selector, peer)
    ensures Parse(env, q.annotation).Some? && selector in Parse(env, q.annotation).value
  {
    hide Selectors, EntryLists;
    SelectorsMerge(env.parse(q.annotation).value, selector);
  }

  lemma PeersOnlyIsParsed(env: Env, q: PolicyObject, name: string)
    requires q.annotation != "" && name != "" && Parse(env, q.annotation).Some?
    ensures PeersOnly(env, q, name) <==>
            var nets := Parse(env, q.annotation).value;
            name !in nets && exists key :: key in nets && IsPeer(nets, key, name)
  {
    hide Selectors, IsPeer, LetsIn, Selects;
    var nets := Parse(env, q.annotation).value;
    SelectsIsParsed(env, q, name);
    if selector :| LetsIn(env, q, selector, name) {
      LetsInNeedsSelector(env, q, selector, name);
      KeysAreNamed(env, q);
      IsPeerMeans(env, q, selector, name);
    }
    if key :| key in nets && IsPeer(nets, key, name) {
      KeysAreNamed(env, q);
      IsPeerMeans(env, q, key, name);
    }
  }

  lemma KeysAreNamed(env: Env, q: PolicyObject)
    requires Parse(env, q.annotation).Some?
    ensures "" !in Parse(env, q.annotation).value
  {
    hide Selectors;
    SelectorsMerge(env.parse(q.annotation).value, "");
  }

  // ---------- Who is on the list ----------

  /** The annotations of the namespace's policies are literal. */
  ghost predicate AllLiteral(env: Env, policies: seq<PolicyObject>, namespace: string) {
    forall i :: 0 <= i < |policies| && policies[i].namespace == namespace ==> Literal(env, policies[i].annotation)
  }

  /** The policy selects the network or has it as a peer only, and its annotation holds the name as a text. */
  ghost predicate Concerned(env: Env, q: PolicyObject, name: string, namespace: string) {
    && q.namespace == namespace && (Selects(env, q, name) || PeersOnly(env, q, name))
    && Contains(q.annotation, name)
  }

  /** One policy's part of the list: only itself, and there iff the name concerns it. */
  lemma ReportMembers(env: Env, w: World, q: PolicyObject, name: string)
    requires ValidOrder(w.order) && name != ""
    ensures forall info :: info in Report(env, w, q, name) <==>
              Concerned(env, q, name, q.namespace) && info == EntryOf(env, q, Selects(env, q, name))
  {
    hide Contains, CountHits, Parse, IsPeer, Selects, PeersOnly, Report, PlainReport;
    SelectsIsParsed(env, q, name);
    FilterPassesOver(env, w, q, name);
    if q.annotation == "" || Parse(env, q.annotation).None? {
      NothingToReport(env, w, q, name);
    } else {
      PeersOnlyIsParsed(env, q, name);
      PlainMeaning(env, w, q, name);
      var r := PlainReport(env, w, q, name);
      if r != [] { assert r[0] in r; }
    }
  }

  lemma NothingToReport(env: Env, w: World, q: PolicyObject, name: string)
    requires name != "" && (q.annotation == "" || Parse(env, q.annotation).None?)
    ensures Report(env, w, q, name) == [] && !Selects(env, q, name) && !PeersOnly(env, q, name)
  {
    hide Contains, Selectors, LetsIn;
  }

  /** On literal annotations the text is there whenever the name is. */
  lemma LiteralConcerns(env: Env, q: PolicyObject, name: string)
    requires Literal(env, q.annotation)
    ensures Selects(env, q, name) || PeersOnly(env, q, name) ==> Contains(q.annotation, name)
  {
    hide Contains, Split, Trim;
    if Selects(env, q, name) {
      var i :| 0 <= i < |env.parse(q.annotation).value| && env.parse(q.annotation).value[i].selector == name;
    } else if PeersOnly(env, q, name) {
      var selector :| LetsIn(env, q, selector, name);
      var i :| 0 <= i < |env.parse(q.annotation).value| && env.parse(q.annotation).value[i].selector == selector
            && EntryLists(env.parse(q.annotation).value[i], name);
      var peers := env.parse(q.annotation).value[i].peers;
      var j :| 0 <= j < |Split(peers, ",")| && Trim(Split(peers, ",")[j]) == name;
      SplitPartIsContained(peers, ",", j);
      TrimIsContained(Split(peers, ",")[j]);
      ContainsTransitive(peers, Split(peers, ",")[j], name);
      ContainsTransitive(q.annotation, peers, name);
    }
  }

  lemma {:induction false} ReportsMembers(env: Env, w: World, policies: seq<PolicyObject>, name: string,
                                          namespace: string, info: PolicyInfo)
    requires ValidOrder(w.order) && name != ""
    ensures info in Reports(env, w, policies, name, namespace) <==>
            exists q :: q in policies && Concerned(env, q, name, namespace) &&
              info == EntryOf(env, q, Selects(env, q, name))
  {
    hide Report, Selects, PeersOnly, Parse, ValidOrder, Contains;
    if policies != [] {
      var before, p, n := Init(policies), Last(policies), |policies| - 1;
      assert policies[n] == p && forall i :: 0 <= i < n ==> before[i] == policies[i];
      ReportsMembers(env, w, before, name, namespace, info);
      assert forall q :: q in policies <==> q in before || q == p;
      if p.namespace == namespace { ReportMembers(env, w, p, name); }
    }
  }

  /**
    The list for a network holds exactly: each policy of the namespace that
    selects it, with its networks, and each that only has it as a peer, without;
    of these, the ones whose annotation holds the name as a text.
   */
  lemma ListedIff(env: Env, w: World, name: string, namespace: string, info: PolicyInfo)
    requires ValidOrder(w.order) && name != ""
    ensures info in ListPolicies(env, w, name, namespace) <==>
            exists q :: q in w.policies && Concerned(env, q, name, namespace) &&
              info == EntryOf(env, q, Selects(env, q, name))
  {
    ReportsMembers(env, w, w.policies, name, namespace, info);
  }

  /** With literal annotations, the text is no further condition. */
  lemma ConcernedIff(env: Env, policies: seq<PolicyObject>, q: PolicyObject, name: string, namespace: string)
    requires AllLiteral(env, policies, namespace) && q in policies
    ensures Concerned(env, q, name, namespace) <==>
            q.namespace == namespace && (Selects(env, q, name) || PeersOnly(env, q, name))
  {
    hide Selects, PeersOnly, Contains, Literal;
    var i :| 0 <= i < |policies| && policies[i] == q;
    if q.namespace == namespace { LiteralConcerns(env, q, name); }
  }

  // ---------- How often ----------

  /** How often a name occurs among some texts, up to surrounding blanks. */
  function Occurrences(texts: seq<string>, name: string): nat {
    if texts == [] then 0
    else (if Trim(texts[0]) == name then 1 else 0) + Occurrences(texts[1..], name)
  }

  /** How often a name occurs among the peers of all entries that have a selector. */
  function PeerOccurrences(entries: seq<Entry>, name: string): nat {
    if entries == [] then 0
    else
      PeerOccurrences(Init(entries), name) +
      if Last(entries).selector == "" then 0 else Occurrences(Split(Last(entries).peers, ","), name)
  }

  lemma {:induction false} CountPeersAppend(a: seq<string>, b: seq<string>, name: string)
    ensures CountPeers(a + b, name) == CountPeers(a, name) + CountPeers(b, name)
    decreases |b|
  {
    hide Trim;
    if b == [] {
      assert a + b == a;
    } else {
      CountPeersAppend(a, Init(b), name);
      assert Init(a + b) == a + Init(b) && Last(a + b) == Last(b);
    }
  }

  lemma {:induction false} CountPeersIsOccurrences(texts: seq<string>, name: string)
    ensures CountPeers(texts, name) == Occurrences(texts, name)
  {
    hide Trim;
    if texts != [] {
      CountPeersIsOccurrences(texts[1..], name);
      CountPeersAppend([texts[0]], texts[1..], name);
      assert texts == [texts[0]] + texts[1..];
      assert Init([texts[0]]) == [] && Last([texts[0]]) == texts[0];
      assert CountPeers([texts[0]], name) == if Trim(texts[0]) == name then 1 else 0;
    }
  }

  lemma {:induction false} CountHitsAlike(m: Networks, n: Networks, keys: seq<string>, name: string)
    requires forall k :: k in keys ==> Peers(m, k) == Peers(n, k)
    ensures CountHits(m, keys, name) == CountHits(n, keys, name)
  {
    hide CountPeers, Peers;
    if keys != [] {
      assert Last(keys) in keys && forall k :: k in Init(keys) ==> k in keys;
      CountHitsAlike(m, n, Init(keys), name);
    }
  }

  lemma CountHitsSingle(m: Networks, key: string, name: string)
    ensures CountHits(m, [key], name) == CountPeers(Peers(m, key), name)
  {
    hide CountPeers, Peers;
    assert Init([key]) == [] && Last([key]) == key;
    assert CountHits(m, [], name) == 0;
  }

  lemma TakeOutEnumerates(keys: seq<string>, s: set<string>, j: nat)
    requires Enumerates(keys, s) && j < |keys|
    ensures Enumerates(keys[..j] + keys[j + 1..], s - {keys[j]})
  {
    var rest := keys[..j] + keys[j + 1..];
    assert forall i :: 0 <= i < |rest| ==> rest[i] == keys[if i < j then i else i + 1];
    forall k ensures k in rest <==> k in s - {keys[j]} {
      if k in rest {
        var i :| 0 <= i < |rest| && rest[i] == k;
        assert keys[if i < j then i else i + 1] in keys;
      }
      if k in s - {keys[j]} {
        assert k in keys;
        var i :| 0 <= i < |keys| && keys[i] == k;
        assert rest[if i < j then i else i - 1] == k;
      }
    }
  }

  lemma AddEnumerates(keys: seq<string>, s: set<string>, key: string)
    requires Enumerates(keys, s) && key !in s
    ensures Enumerates(keys + [key], s + {key})
  {
    assert forall i :: 0 <= i < |keys| ==> keys[i] in keys;
  }

  /** The hits counted over the merged map are the occurrences in the entries, whatever the order of the map. */
  lemma {:induction false} HitsAreOccurrences(entries: seq<Entry>, keys: seq<string>, name: string)
    requires Enumerates(keys, Selectors(entries).Keys)
    ensures CountHits(Selectors(entries), keys, name) == PeerOccurrences(entries, name)
  {
    hide CountPeers, CountHits, Split, Enumerates, Occurrences;
    if entries == [] {
      assert Selectors(entries).Keys == {};
      NoKeys(keys);
      NoHits(Selectors(entries), name);
    } else {
      var m, e, m' := Selectors(Init(entries)), Last(entries), Selectors(entries);
      if e.selector == "" {
        HitsAreOccurrences(Init(entries), keys, name);
      } else {
        var parts := Split(e.peers, ",");
        var j := IndexOf(keys, m'.Keys, e.selector);
        var rest := keys[..j] + keys[j + 1..];
        TakeOutEnumerates(keys, m'.Keys, j);
        CountHitsTakeOut(m', keys, j, name);
        CountHitsSingle(m', e.selector, name);
        CountHitsSingle(m, e.selector, name);
        CountPeersAppend(Peers(m, e.selector), parts, name);
        CountPeersIsOccurrences(parts, name);
        NotTakenOut(rest, m'.Keys - {e.selector}, e.selector);
        CountHitsAlike(m', m, rest, name);
        if e.selector in m {
          assert m'.Keys - {e.selector} + {e.selector} == m.Keys;
          AddEnumerates(rest, m'.Keys - {e.selector}, e.selector);
          HitsAreOccurrences(Init(entries), rest + [e.selector], name);
          CountHitsAppend(m, rest, [e.selector], name);
        } else {
          assert m'.Keys - {e.selector} == m.Keys;
          HitsAreOccurrences(Init(entries), rest, name);
          NoPeers(name);
        }
      }
    }
  }

  lemma NoKeys(keys: seq<string>)
    requires Enumerates(keys, {})
    ensures keys == []
  {
    EmptyOrMember(keys);
  }

  lemma NoHits(m: Networks, name: string)
    ensures CountHits(m, [], name) == 0
  {
  }

  lemma NoPeers(name: string)
    ensures CountPeers([], name) == 0
  {
  }

  lemma IndexOf(keys: seq<string>, s: set<string>, key: string) returns (j: nat)
    requires Enumerates(keys, s) && key in s
    ensures j < |keys| && keys[j] == key
  {
    assert key in keys;
    j :| 0 <= j < |keys| && keys[j] == key;
  }

  lemma NotTakenOut(keys: seq<string>, s: set<string>, key: string)
    requires Enumerates(keys, s) && key !in s
    ensures key !in keys
  {
  }

  /** How many entries of the list a policy accounts for. */
  ghost function Share(env: Env, q: PolicyObject, name: string): nat {
    if q.annotation == "" || env.parse(q.annotation).None? || !Contains(q.annotation, name) then 0
    else if Selects(env, q, name) then 1
    else PeerOccurrences(env.parse(q.annotation).value, name)
  }

  lemma ReportShare(env: Env, w: World, q: PolicyObject, name: string)
    requires ValidOrder(w.order) && name != ""
    ensures |Report(env, w, q, name)| == Share(env, q, name)
    ensures forall i :: 0 <= i < |Report(env, w, q, name)| ==>
              Report(env, w, q, name)[i] == EntryOf(env, q, Selects(env, q, name))
  {
    hide Contains, CountHits, Selectors, Selects, Report, PlainReport, PeerOccurrences, IsPeer, Enumerates;
    SelectsIsParsed(env, q, name);
    FilterPassesOver(env, w, q, name);
    if q.annotation == "" || Parse(env, q.annotation).None? {
      NothingToReport(env, w, q, name);
    } else {
      PlainMeaning(env, w, q, name);
      var nets := Parse(env, q.annotation).value;
      assert Enumerates(w.order(nets.Keys), nets.Keys);
      HitsAreOccurrences(env.parse(q.annotation).value, w.order(nets.Keys), name);
    }
  }

  /** The shares of the policies that are listed as the given entry. */
  ghost function Shares(env: Env, policies: seq<PolicyObject>, name: string, namespace: string, info: PolicyInfo): nat {
    if policies == [] then 0
    else
      var p := Last(policies);
      Shares(env, Init(policies), name, namespace, info) +
      if p.namespace == namespace && EntryOf(env, p, Selects(env, p, name)) == info then Share(env, p, name) else 0
  }

  lemma {:induction false} TimesOfOne<T>(s: seq<T>, x: T, y: T)
    requires forall i :: 0 <= i < |s| ==> s[i] == x
    ensures multiset(s)[y] == if x == y then |s| else 0
  {
    if s != [] {
      TimesOfOne(s[1..], x, y);
      assert s == [s[0]] + s[1..];
    }
  }

  /** How often an entry is on the list: once per selecting policy, once per occurrence in a peer-only one. */
  lemma {:induction false} ListedTimes(env: Env, w: World, policies: seq<PolicyObject>, name: string, namespace: string,
                                       info: PolicyInfo)
    requires ValidOrder(w.order) && name != ""
    ensures multiset(Reports(env, w, policies, name, namespace))[info] == Shares(env, policies, name, namespace, info)
  {
    hide Report, Selects, Share, Parse, ValidOrder;
    if policies != [] {
      var before, p, n := Init(policies), Last(policies), |policies| - 1;
      assert policies[n] == p && forall i :: 0 <= i < n ==> before[i] == policies[i];
      ListedTimes(env, w, before, name, namespace, info);
      if p.namespace == namespace {
        ReportShare(env, w, p, name);
        TimesOfOne(Report(env, w, p, name), EntryOf(env, p, Selects(env, p, name)), info);
      }
    }
  }
}
