/** One node's table as iptables prints it: the texts that the controller goes by, letter for letter. */
module Listings {
  import opened Sequences
  import opened Text
  import opened Rules
  import opened Tables
  import opened Invariant
  import opened Preservation
  import opened Handlers
  import opened Instances
  import opened Counterexamples

  lemma NamesAre()
    ensures NET_N == "GnNtk-00000000000000000000" && POL_A == "GnPlc-aaaaaaaaaaaaaaaaaaaa"
  {
    NamedForNamespace(MD5, "n", "d", "n", "d");
    NamedForNamespace(MD5, "a", "d", "a", "d");
    assert MD5("n" + "d")[..20] == "00000000000000000000";
    assert MD5("a" + "d")[..20] == "aaaaaaaaaaaaaaaaaaaa";
  }

  /** The network's ADD on a fresh base chain, and a peer let in with its own subnet. */
  ghost function Served(): Table {
    InsertPeer(Added(STARTED, NET), POL_A, NET).0
  }

  lemma ServedIs()
    ensures var t := Served();
            && BASE in t && t[BASE] == [Rule(Dst(NET), NET_N), Rule(Src(NET), NET_N)]
            && NET_N in t && t[NET_N] == [Jump(POL_A), REJECT_ALL]
            && POL_A in t && t[POL_A] == [Rule(Src(NET), ACCEPT), Rule(Dst(NET), ACCEPT)]
  {
    hide Kind, Cidr, NetName, PolName;
    KindFacts();
    NamesDiffer();
    NetsAreCidr();
    var none: seq<Rule> := [];
    var a, b := Rule(Dst(NET), NET_N), Rule(Src(NET), NET_N);
    assert AppendNew(none, a) == [a] && AppendNew([a], b) == [a, b];
  }

  /** A text of blank-separated words. */
  function Sentence(words: seq<string>): string
    requires words != []
  {
    Join(words, " ")
  }

  /** The lines of the three chains, word by word. */
  lemma ListedAs()
    ensures var t := Served();
            && "Genie-NPC-Base" in t && Listing(t, "Genie-NPC-Base") == [
                 Sentence(["-N", "Genie-NPC-Base"]),
                 Sentence(["-A", "Genie-NPC-Base", "-d", "10.0.0.0/8", "-j", "GnNtk-00000000000000000000"]),
                 Sentence(["-A", "Genie-NPC-Base", "-s", "10.0.0.0/8", "-j", "GnNtk-00000000000000000000"])]
            && "GnNtk-00000000000000000000" in t && Listing(t, "GnNtk-00000000000000000000") == [
                 Sentence(["-N", "GnNtk-00000000000000000000"]),
                 Sentence(["-A", "GnNtk-00000000000000000000", "-j", "GnPlc-aaaaaaaaaaaaaaaaaaaa"]),
                 Sentence(["-A", "GnNtk-00000000000000000000", "-j", "REJECT", "--reject-with",
                           "icmp-port-unreachable"])]
            && "GnPlc-aaaaaaaaaaaaaaaaaaaa" in t && Listing(t, "GnPlc-aaaaaaaaaaaaaaaaaaaa") == [
                 Sentence(["-N", "GnPlc-aaaaaaaaaaaaaaaaaaaa"]),
                 Sentence(["-A", "GnPlc-aaaaaaaaaaaaaaaaaaaa", "-s", "10.0.0.0/8", "-j", "ACCEPT"]),
                 Sentence(["-A", "GnPlc-aaaaaaaaaaaaaaaaaaaa", "-d", "10.0.0.0/8", "-j", "ACCEPT"])]
  {
    hide Kind, Cidr, NetName, PolName, Line, Header, Served, Join;
    var b, n, p := "Genie-NPC-Base", "GnNtk-00000000000000000000", "GnPlc-aaaaaaaaaaaaaaaaaaaa";
    ServedIs();
    NamesAre();
    NoReject();
    ListingOf(Served(), b);
    ListingOf(Served(), n);
    ListingOf(Served(), p);
    LinesAre(b, "10.0.0.0/8", n);
    LinesAre(n, "10.0.0.0/8", p);
    LinesAre(p, "10.0.0.0/8", "ACCEPT");
  }

  lemma NoReject()
    ensures "ACCEPT" != "REJECT" && "GnNtk-00000000000000000000" != "REJECT" && "GnPlc-aaaaaaaaaaaaaaaaaaaa" != "REJECT"
  {
    assert "ACCEPT"[0] != "REJECT"[0] && "GnNtk-00000000000000000000"[0] != "REJECT"[0];
    assert "GnPlc-aaaaaaaaaaaaaaaaaaaa"[0] != "REJECT"[0];
  }

  /** The line of a rule with a subnet, and those of a jump and of a REJECT. */
  lemma LinesAre(chain: string, subnet: string, target: string)
    requires target != "REJECT"
    ensures Line(chain, Rule(Src(subnet), target)) == Sentence(["-A", chain, "-s", subnet, "-j", target])
    ensures Line(chain, Rule(Dst(subnet), target)) == Sentence(["-A", chain, "-d", subnet, "-j", target])
    ensures Line(chain, Jump(target)) == Sentence(["-A", chain, "-j", target])
    ensures Line(chain, REJECT_ALL) == Sentence(["-A", chain, "-j", "REJECT", "--reject-with", "icmp-port-unreachable"])
    ensures Header(chain) == Sentence(["-N", chain])
  {
    assert LineWords(chain, Rule(Src(subnet), target)) == ["-A", chain, "-s", subnet, "-j", target];
    assert LineWords(chain, Rule(Dst(subnet), target)) == ["-A", chain, "-d", subnet, "-j", target];
    assert LineWords(chain, Jump(target)) == ["-A", chain, "-j", target];
    assert LineWords(chain, REJECT_ALL) == ["-A", chain, "-j", "REJECT", "--reject-with", "icmp-port-unreachable"];
  }

  lemma ListingOf(t: Table, c: string)
    requires c in t
    ensures |t[c]| == 2 ==> Listing(t, c) == [Header(c), Line(c, t[c][0]), Line(c, t[c][1])]
  {
    hide Line, Header;
  }
}
