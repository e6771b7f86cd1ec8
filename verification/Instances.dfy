/** The hypotheses of the exactness results can be met together: one node, one network, one policy. */
module Instances {
  import opened Options
  import opened Sequences
  import opened Text
  import opened Rules
  import opened Tables
  import opened Invariant
  import opened Handlers
  import opened Safety
  import opened PolicyListing
  import opened Effects
  import opened Populating
  import opened Exactness

  // ---------- The environment ----------

  ghost function Enumeration(s: set<string>): (keys: seq<string>)
    ensures Enumerates(keys, s)
  {
    if s == {} then [] else
    var x :| x in s;
    var rest := Enumeration(s - {x});
    assert forall k :: k in [x] + rest <==> k == x || k in rest;
    [x] + rest
  }

  /** A digest that tells texts apart by their first letter. */
  function FirstLetter(text: string): Digest {
    var c := if text != "" && 'a' <= text[0] <= 'f' then text[0] else '0';
    seq(32, _ => c)
  }

  const MD5: string -> Digest := FirstLetter

  /** An annotation is one selector letter followed by its peers. */
  function Decode(annotation: string): Option<seq<Entry>> {
    if annotation == "" then None else Some([Entry(annotation[..1], annotation[1..])])
  }

  const ENV: Env := Env(MD5, Decode, (_: string) => None)

  const NET := "10.0.0.0/8"
  const OTHER_NET := "11.0.0.0/8"

  lemma NetsAreCidr()
    ensures Cidr(NET) && Cidr(OTHER_NET)
  {
    hide Cidr;
    assert Itoa(1) == "1" && Itoa(10) == "10" && Itoa(11) == "11";
    ClassA(10, "10");
    ClassA(11, "11");
    assert "10" + ".0.0.0/8" == NET && "11" + ".0.0.0/8" == OTHER_NET;
  }

  lemma ClassA(a: nat, text: string)
    requires a < 256 && Itoa(a) == text
    ensures Cidr(text + ".0.0.0/8")
  {
    hide HostBitsClear;
    assert Itoa(0) == "0" && Itoa(8) == "8";
    assert CidrText(a, 0, 0, 0, 8) == text + ".0.0.0/8";
    Aligned(a);
  }

  lemma Aligned(a: nat)
    ensures HostBitsClear(a, 0, 0, 0, 8)
  {
    assert Pow2(8) == 256;
    assert Pow2(16) == 65536;
    assert Pow2(24) == 16777216;
    assert ((a * 256 + 0) * 256 + 0) * 256 + 0 == 16777216 * a;
  }

  lemma OneSelector(selector: char, peers: string)
    requires ',' !in peers
    ensures Parse(ENV, [selector] + peers) == Some(map[[selector] := [peers]])
  {
    var a := [selector] + peers;
    assert a[..1] == [selector] && a[1..] == peers;
    NoCharNoOccurrence(peers, ",");
    SplitWithoutSeparator(peers, ",");
    var e := [Entry([selector], peers)];
    assert Init(e) == [] && Last(e) == e[0];
    assert Selectors(Init(e)) == map[];
    var none: seq<string> := [];
    assert none + [peers] == [peers];
  }

  // ---------- The node ----------

  /** The policy lets the network `n` talk to itself. */
  const POLICY: PolicyObject := PolicyObject("p", "d", "nn")

  ghost const WORLD: World := World([POLICY], map[("d", "n") := NET], (k: set<string>) => Enumeration(k))

  ghost const FEED: Feed := (_: nat) => WORLD

  /** Nothing of Genie's is set up but the empty base chain. */
  const TABLE: Table := map[FORWARD := [Jump(BASE)], BASE := []]

  ghost const HYP: Hyp := Hyp((_: string) => NET, TABLE, true, (s: string) => s == NET)

  ghost const CONTEXT: Context := Context(ENV, WORLD, "d", PolName(MD5, "p", "d"), map["n" := ["n"]])

  lemma SampleIsSteady()
    ensures Steady(FEED, WORLD)
  {
  }

  lemma SampleIsSafe()
    ensures Safe(TABLE, HYP)
  {
    hide Kind;
    KindFacts();
    forall c | c in TABLE ensures ChainOk(TABLE, c) {}
  }

  lemma SampleIsFixed()
    ensures FixedSubnets(ENV, FEED, HYP)
  {
    hide NetName, Cidr, Contains;
    NetsAreCidr();
  }

  lemma SampleIsPlain()
    ensures PlainPolicy(CONTEXT, TABLE, POLICY)
    ensures Reachable(CONTEXT, TABLE, "n") && ChainOf(CONTEXT, "n") !in TABLE
  {
    hide Kind, Trim, Contains, Parse, PolName, ChainOf, Cidr;
    KindFacts();
    OneSelector('n', "n");
    assert ['n'] + "n" == "nn" && ['n'] == "n";
    TrimStays("n");
    ChainOfIsNet(CONTEXT, "n");
    SampleIsLiteral();
    NetsAreCidr();
  }

  lemma SampleIsLiteral()
    ensures Literal(ENV, "nn")
  {
    assert "nn"[..1] == "n" == "nn"[1..];
    assert OccursAt("nn", "n", 0);
  }

  /** Policy ADD is exact on the sample: its one network is not set up yet, and afterwards jumps to the policy. */
  lemma PolicyAddApplies()
    ensures var t := PolicyAdd(ENV, FEED, State(TABLE, 0), "p", "d").0.table;
            var c := ChainOf(CONTEXT, "n");
            c !in TABLE && c in t && t[c] == [Jump(CONTEXT.chain), REJECT_ALL]
  {
    hide Kind, PlainPolicy, Safe, FixedSubnets, Steady, PolicyAdd, ChainOf, PeerSubnets;
    SampleIsSteady();
    SampleIsSafe();
    SampleIsFixed();
    SampleIsPlain();
    assert FindPolicy(WORLD.policies, "p", "d") == Some(POLICY);
    PolicyAddExact(CONTEXT, FEED, State(TABLE, 0), POLICY, HYP);
    assert "n" in CONTEXT.networks;
  }
}
