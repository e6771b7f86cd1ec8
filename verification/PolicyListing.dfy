/**
  What the list of policies that concern a network contains, that its
  substring pre-filter loses nothing, and that the enumeration order of Go
  maps does not show in it.
 */
module PolicyListing {
  import opened Options
  import opened Sequences
  import opened Text
  import opened Rules
  import opened Tables
  import opened Invariant
  import opened Handlers

  ghost predicate ValidOrder(order: set<string> -> seq<string>) {
    forall s: set<string> :: Enumerates(order(s), s)
  }

  // ---------- Annotations ----------

  /** The peers of all entries with a given selector, in order. */
  function PeersFor(entries: seq<Entry>, selector: string): seq<string> {
    if entries == [] then []
    else
      var before := PeersFor(Init(entries), selector);
      if Last(entries).selector == selector then before + Split(Last(entries).peers, ",") else before
  }

  /** Entries with the same selector are merged, in order; entries without a selector are dropped. */
  lemma {:induction false} SelectorsMerge(entries: seq<Entry>, selector: string)
    ensures selector in Selectors(entries) <==>
            selector != "" && exists i :: 0 <= i < |entries| && entries[i].selector == selector
    ensures selector != "" ==> Peers(Selectors(entries), selector) == PeersFor(entries, selector)
  {
    hide Split;
    if entries != [] {
      SelectorsMerge(Init(entries), selector);
      if i :| 0 <= i < |Init(entries)| && Init(entries)[i].selector == selector {
        assert entries[i].selector == selector;
      }
      if i :| 0 <= i < |entries| && entries[i].selector == selector {
        assert i < |entries| - 1 ==> Init(entries)[i].selector == selector;
      }
      assert entries[|entries| - 1] == Last(entries);
    }
  }

  // ---------- The pre-filter ----------

  /** The strings an annotation decodes to occur in it as they are: no escapes in the JSON text. */
  ghost predicate Literal(env: Env, annotation: string) {
    env.parse(annotation).Some? ==>
      forall i :: 0 <= i < |env.parse(annotation).value| ==>
        Contains(annotation, env.parse(annotation).value[i].selector) &&
        Contains(annotation, env.parse(annotation).value[i].peers)
  }

  /** The plain query: no look at the annotation's text. */
  function PlainReport(env: Env, w: World, p: PolicyObject, name: string): seq<PolicyInfo> {
    var nets := Parse(env, p.annotation);
    if p.annotation == "" then []
    else if name == "" then [PolicyInfo(p.name, p.namespace, nets)]
    else if nets.None? then []
    else if name in nets.value then [PolicyInfo(p.name, p.namespace, nets)]
    else Repeat(PolicyInfo(p.name, p.namespace, None), CountHits(nets.value, w.order(nets.value.Keys), name))
  }

  lemma {:induction false} SelectorIsContained(entries: seq<Entry>, annotation: string, name: string)
    requires forall i :: 0 <= i < |entries| ==> Contains(annotation, entries[i].selector)
    requires name in Selectors(entries)
    ensures Contains(annotation, name)
  {
    hide Contains, Split;
    if Last(entries).selector != name {
      SelectorIsContained(Init(entries), annotation, name);
    }
  }

  lemma {:induction false} PeerIsContained(entries: seq<Entry>, annotation: string, key: string, j: nat)
    requires forall i :: 0 <= i < |entries| ==> Contains(annotation, entries[i].peers)
    requires j < |Peers(Selectors(entries), key)|
    ensures Contains(annotation, Peers(Selectors(entries), key)[j])
  {
    hide Contains, Split;
    var before, e := Peers(Selectors(Init(entries)), key), Last(entries);
    if j < |before| {
      PeerIsContained(Init(entries), annotation, key, j);
    } else {
      var k := j - |before|;
      assert e.selector == key && Peers(Selectors(entries), key)[j] == Split(e.peers, ",")[k];
      SplitPartIsContained(e.peers, ",", k);
      ContainsTransitive(annotation, e.peers, Split(e.peers, ",")[k]);
    }
  }

  lemma {:induction false} CountPeersPositive(peers: seq<string>, name: string)
    ensures CountPeers(peers, name) > 0 <==> exists j :: 0 <= j < |peers| && Trim(peers[j]) == name
  {
    hide Trim;
    if peers != [] {
      CountPeersPositive(Init(peers), name);
      if CountPeers(Init(peers), name) > 0 {
        var j :| 0 <= j < |Init(peers)| && Trim(Init(peers)[j]) == name;
        assert Trim(peers[j]) == name;
      } else if j :| 0 <= j < |peers| && Trim(peers[j]) == name {
        assert j < |peers| - 1 ==> Trim(Init(peers)[j]) == name;
      }
    }
  }

  ghost predicate IsPeer(networks: Networks, key: string, name: string) {
    exists j :: 0 <= j < |Peers(networks, key)| && Trim(Peers(networks, key)[j]) == name
  }

  lemma {:induction false} CountHitsPositive(networks: Networks, keys: seq<string>, name: string)
    ensures CountHits(networks, keys, name) > 0 <==> exists i :: 0 <= i < |keys| && IsPeer(networks, keys[i], name)
  {
    hide CountPeers, IsPeer, Peers;
    if keys != [] {
      CountHitsPositive(networks, Init(keys), name);
      PeerCounted(networks, Last(keys), name);
      if CountHits(networks, Init(keys), name) > 0 {
        var i :| 0 <= i < |Init(keys)| && IsPeer(networks, Init(keys)[i], name);
        assert IsPeer(networks, keys[i], name);
      } else if i :| 0 <= i < |keys| && IsPeer(networks, keys[i], name) {
        assert i < |keys| - 1 ==> IsPeer(networks, Init(keys)[i], name);
      }
      assert keys[|keys| - 1] == Last(keys);
    }
  }

  lemma PeerCounted(networks: Networks, key: string, name: string)
    ensures CountPeers(Peers(networks, key), name) > 0 <==> IsPeer(networks, key, name)
  {
    CountPeersPositive(Peers(networks, key), name);
  }

  /** When annotations are literal, the substring pre-filter drops no policy and changes no entry. */
  lemma FilterDropsNothing(env: Env, w: World, p: PolicyObject, name: string)
    requires Literal(env, p.annotation)
    ensures Report(env, w, p, name) == PlainReport(env, w, p, name)
  {
    hide Contains, Split, Trim, CountHits, Selectors;
    var parsed := env.parse(p.annotation);
    if name != "" && parsed.Some? && !Contains(p.annotation, name) {
      var nets := Selectors(parsed.value);
      if name in nets {
        SelectorIsContained(parsed.value, p.annotation, name);
      } else {
        var keys := w.order(nets.Keys);
        CountHitsPositive(nets, keys, name);
        if i :| 0 <= i < |keys| && IsPeer(nets, keys[i], name) {
          var j :| 0 <= j < |Peers(nets, keys[i])| && Trim(Peers(nets, keys[i])[j]) == name;
          PeerIsContained(parsed.value, p.annotation, keys[i], j);
          TrimIsContained(Peers(nets, keys[i])[j]);
          ContainsTransitive(p.annotation, Peers(nets, keys[i])[j], name);
        }
      }
    }
  }

  /** The pre-filter: a policy whose annotation does not hold the name as a text is passed over. */
  lemma FilterPassesOver(env: Env, w: World, p: PolicyObject, name: string)
    ensures name != "" && !Contains(p.annotation, name) ==> Report(env, w, p, name) == []
    ensures name == "" || Contains(p.annotation, name) ==> Report(env, w, p, name) == PlainReport(env, w, p, name)
  {
    hide Contains, CountHits, Parse;
  }

  /** A query without a name lists every policy with an annotation, with its networks. */
  lemma ReportWithoutName(env: Env, w: World, p: PolicyObject)
    ensures Report(env, w, p, "") ==
            if p.annotation == "" then [] else [PolicyInfo(p.name, p.namespace, Parse(env, p.annotation))]
  {
    hide Contains, CountHits, Parse;
  }

  /**
    What the plain query says of one policy: selecting policies once, with their
    networks; the others once per occurrence among their trimmed peers, so not
    at all iff the name is no peer.
   */
  lemma PlainMeaning(env: Env, w: World, p: PolicyObject, name: string)
    requires ValidOrder(w.order)
    requires p.annotation != "" && name != "" && Parse(env, p.annotation).Some?
    ensures var nets, r := Parse(env, p.annotation).value, PlainReport(env, w, p, name);
            && (name in nets ==> r == [PolicyInfo(p.name, p.namespace, Some(nets))])
            && (name !in nets ==>
                  && |r| == CountHits(nets, w.order(nets.Keys), name)
                  && (forall i :: 0 <= i < |r| ==> r[i] == PolicyInfo(p.name, p.namespace, None))
                  && (r != [] <==> exists key :: key in nets && IsPeer(nets, key, name)))
  {
    hide CountHits, Selectors, IsPeer;
    var nets := Parse(env, p.annotation).value;
    var keys := w.order(nets.Keys);
    assert Enumerates(keys, nets.Keys);
    CountHitsPositive(nets, keys, name);
    if key :| key in nets && IsPeer(nets, key, name) {
      assert key in keys;
      var i :| 0 <= i < |keys| && keys[i] == key;
      assert IsPeer(nets, keys[i], name);
    }
    if i :| 0 <= i < |keys| && IsPeer(nets, keys[i], name) {
      assert keys[i] in keys && keys[i] in nets;
    }
  }

  /** And so does the query itself, if the annotation is literal. */
  lemma ReportMeaning(env: Env, w: World, p: PolicyObject, name: string)
    requires Literal(env, p.annotation) && ValidOrder(w.order)
    requires p.annotation != "" && name != "" && Parse(env, p.annotation).Some?
    ensures var nets := Parse(env, p.annotation).value;
            && (name in nets ==> Report(env, w, p, name) == [PolicyInfo(p.name, p.namespace, Some(nets))])
            && (name !in nets ==>
                  && |Report(env, w, p, name)| == CountHits(nets, w.order(nets.Keys), name)
                  && (forall i :: 0 <= i < |Report(env, w, p, name)| ==>
                      Report(env, w, p, name)[i] == PolicyInfo(p.name, p.namespace, None))
                  && (Report(env, w, p, name) != [] <==> exists key :: key in nets && IsPeer(nets, key, name)))
  {
    hide Contains, CountHits, Selectors, Report, PlainReport, Literal, IsPeer;
    FilterDropsNothing(env, w, p, name);
    PlainMeaning(env, w, p, name);
  }

  // ---------- Enumeration order ----------

  lemma {:induction false} CountHitsAppend(networks: Networks, a: seq<string>, b: seq<string>, name: string)
    ensures CountHits(networks, a + b, name) == CountHits(networks, a, name) + CountHits(networks, b, name)
    decreases |b|
  {
    hide CountPeers, Peers;
    if b == [] {
      assert a + b == a;
    } else {
      assert Init(a + b) == a + Init(b) && Last(a + b) == Last(b);
      CountHitsAppend(networks, a, Init(b), name);
    }
  }

  lemma EmptyOrMember<T>(s: seq<T>)
    ensures s == [] || exists x :: x in s
  {
    if s != [] { assert s[0] in s; }
  }

  lemma CountHitsTakeOut(networks: Networks, b: seq<string>, j: nat, name: string)
    requires j < |b|
    ensures CountHits(networks, b, name) ==
            CountHits(networks, b[..j] + b[j + 1..], name) + CountHits(networks, [b[j]], name)
  {
    hide CountHits;
    CountHitsAppend(networks, b[..j], b[j + 1..], name);
    assert b == b[..j] + ([b[j]] + b[j + 1..]);
    CountHitsAppend(networks, b[..j], [b[j]] + b[j + 1..], name);
    CountHitsAppend(networks, [b[j]], b[j + 1..], name);
  }

  /** The number of entries does not depend on the order in which the map is walked. */
  lemma {:induction false} CountHitsAnyOrder(networks: Networks, a: seq<string>, b: seq<string>, s: set<string>,
                                             name: string)
    requires Enumerates(a, s) && Enumerates(b, s)
    ensures CountHits(networks, a, name) == CountHits(networks, b, name)
    decreases |a|
  {
    hide CountPeers, Peers, CountHits;
    if a == [] {
      EmptyOrMember(b);
    } else {
      var x := Last(a);
      assert x in a && x in b;
      var j :| 0 <= j < |b| && b[j] == x;
      var b' := b[..j] + b[j + 1..];
      assert forall k :: k in b' <==> k in b && k != x;
      assert NoDup(b');
      assert forall k :: k in Init(a) <==> k in a && k != x;
      CountHitsAnyOrder(networks, Init(a), b', s - {x}, name);
      CountHitsTakeOut(networks, a, |a| - 1, name);
      assert a[..|a| - 1] + a[|a|..] == Init(a);
      CountHitsTakeOut(networks, b, j, name);
    }
  }

  /** Two views of the same objects give the same list. */
  lemma {:induction false} ReportsAnyOrder(env: Env, v: World, w: World, policies: seq<PolicyObject>, name: string,
                                           namespace: string)
    requires ValidOrder(v.order) && ValidOrder(w.order)
    ensures Reports(env, v, policies, name, namespace) == Reports(env, w, policies, name, namespace)
  {
    hide CountHits, Contains;
    if policies != [] {
      ReportsAnyOrder(env, v, w, Init(policies), name, namespace);
      var nets := Parse(env, Last(policies).annotation);
      if nets.Some? {
        CountHitsAnyOrder(nets.value, v.order(nets.value.Keys), w.order(nets.value.Keys), nets.value.Keys, name);
      }
    }
  }
}
