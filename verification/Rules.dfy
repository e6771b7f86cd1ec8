/**
  Chain names and rules of the filter table, and the text in which
  `iptables -S` lists them.  The controller never sees rules, only these
  lines: it recognises a rule by searching its line for a chain name or a
  subnet.  The lemmas here show when that search is right.
 */
module Rules {
  import opened Text

  const BASE := "Genie-NPC-Base"
  const FORWARD := "FORWARD"
  const POLICY_PREFIX := "GnPlc-"
  const NETWORK_PREFIX := "GnNtk-"
  const ACCEPT := "ACCEPT"
  const REJECT := "REJECT"

  // ---------- Chain names ----------

  predicate IsHex(c: char) {
    '0' <= c <= '9' || 'a' <= c <= 'f'
  }

  ghost predicate IsDigest(d: string) {
    |d| == 32 && forall i :: 0 <= i < |d| ==> IsHex(d[i])
  }

  /** The 16 bytes of an md5 sum, printed as 32 hexadecimal digits. */
  type Digest = d: string | IsDigest(d) witness seq(32, _ => '0')

  predicate Named(c: string, prefix: string) {
    |c| == 26 && |prefix| == 6 && c[..6] == prefix && forall i :: 6 <= i < 26 ==> IsHex(c[i])
  }

  datatype ChainKind = BaseChain | NetworkChain | PolicyChain | ForeignChain

  function Kind(c: string): ChainKind {
    if c == BASE then BaseChain
    else if Named(c, NETWORK_PREFIX) then NetworkChain
    else if Named(c, POLICY_PREFIX) then PolicyChain
    else ForeignChain
  }

  predicate IsNet(c: string) { Kind(c) == NetworkChain }

  predicate IsPol(c: string) { Kind(c) == PolicyChain }

  lemma KindFacts()
    ensures Kind(BASE) == BaseChain
    ensures forall c :: Kind(c) == BaseChain ==> c == BASE
    ensures Kind(ACCEPT) == Kind(REJECT) == Kind(FORWARD) == Kind("") == ForeignChain
  {
  }

  lemma KindOfNamed(c: string)
    ensures IsPol(c) <==> Named(c, POLICY_PREFIX)
    ensures IsNet(c) <==> Named(c, NETWORK_PREFIX)
  {
    if Named(c, POLICY_PREFIX) {
      assert c[2] == c[..6][2] == 'P';
    }
  }

  /** CreateIptableChainName: prefix and digest, cut to 26 characters. */
  function ChainName(md5: string -> Digest, prefix: string, suffix: string): (c: string)
    requires |prefix| == 6
    ensures Named(c, prefix)
  {
    (prefix + md5(suffix))[..26]
  }

  function NetName(md5: string -> Digest, name: string, namespace: string): (c: string)
    ensures IsNet(c)
  {
    ChainName(md5, NETWORK_PREFIX, name + namespace)
  }

  function PolName(md5: string -> Digest, name: string, namespace: string): (c: string)
    ensures IsPol(c)
  {
    var c := ChainName(md5, POLICY_PREFIX, name + namespace);
    assert c[2] != NETWORK_PREFIX[2] by { assert c[..6][2] == POLICY_PREFIX[2]; }
    c
  }

  // ---------- Rules ----------

  datatype Match = Any | Src(subnet: string) | Dst(subnet: string)

  datatype Rule = Rule(on: Match, target: string)

  function Jump(chain: string): Rule { Rule(Any, chain) }

  const REJECT_ALL: Rule := Rule(Any, REJECT)

  function AcceptFrom(subnet: string): Rule { Rule(Src(subnet), ACCEPT) }

  function AcceptTo(subnet: string): Rule { Rule(Dst(subnet), ACCEPT) }

  /** A name is the prefix and the first twenty digits of the digest of its suffix. */
  lemma ChainNameIs(md5: string -> Digest, prefix: string, suffix: string)
    requires |prefix| == 6
    ensures ChainName(md5, prefix, suffix) == prefix + md5(suffix)[..20]
  {
  }

  /**
    What a chain is named for: two policies share a chain name iff the digests
    of their names with their namespaces share the first twenty digits; networks
    likewise.
   */
  lemma NamedForNamespace(md5: string -> Digest, name: string, namespace: string, name': string, namespace': string)
    ensures PolName(md5, name, namespace) == "GnPlc-" + md5(name + namespace)[..20]
    ensures NetName(md5, name, namespace) == "GnNtk-" + md5(name + namespace)[..20]
    ensures PolName(md5, name, namespace) == PolName(md5, name', namespace') <==>
            md5(name + namespace)[..20] == md5(name' + namespace')[..20]
    ensures NetName(md5, name, namespace) == NetName(md5, name', namespace') <==>
            md5(name + namespace)[..20] == md5(name' + namespace')[..20]
  {
    var a, b := md5(name + namespace)[..20], md5(name' + namespace')[..20];
    ChainNameIs(md5, "GnPlc-", name + namespace);
    ChainNameIs(md5, "GnPlc-", name' + namespace');
    ChainNameIs(md5, "GnNtk-", name + namespace);
    ChainNameIs(md5, "GnNtk-", name' + namespace');
    assert ("GnPlc-" + a)[6..] == a && ("GnPlc-" + b)[6..] == b;
    assert ("GnNtk-" + a)[6..] == a && ("GnNtk-" + b)[6..] == b;
  }

  // ---------- Subnets ----------

  /** The notation of section 3.1 of RFC 4632. */
  function CidrText(a: nat, b: nat, c: nat, d: nat, length: nat): string {
    Itoa(a) + "." + Itoa(b) + "." + Itoa(c) + "." + Itoa(d) + "/" + Itoa(length)
  }

  function Pow2(n: nat): (r: nat)
    ensures r > 0
  {
    if n == 0 then 1 else 2 * Pow2(n - 1)
  }

  /** The bits of the address beyond the prefix are clear. */
  predicate HostBitsClear(a: nat, b: nat, c: nat, d: nat, length: nat)
    requires length <= 32
  {
    (((a * 256 + b) * 256 + c) * 256 + d) % Pow2(32 - length) == 0
  }

  /** An IPv4 subnet as iptables prints it back; the subnet of length 0 matches everything and is never printed. */
  predicate Cidr(s: string) {
    exists a, b, c, d, length ::
      && 0 <= a < 256 && 0 <= b < 256 && 0 <= c < 256 && 0 <= d < 256 && 1 <= length <= 32
      && HostBitsClear(a, b, c, d, length) && s == CidrText(a, b, c, d, length)
  }

  ghost predicate SubnetChars(s: string) {
    forall i :: 0 <= i < |s| ==> '0' <= s[i] <= '9' || s[i] == '.' || s[i] == '/'
  }

  lemma SubnetCharsAppend(s: string, n: nat, sep: string)
    requires SubnetChars(s) && SubnetChars(sep)
    ensures SubnetChars(s + sep + Itoa(n))
    ensures '.' in s || '.' in sep ==> '.' in s + sep + Itoa(n)
  {
    hide Itoa;
    assert forall x :: x in s + sep + Itoa(n) <==> x in s || x in sep || x in Itoa(n);
  }

  /** All that searching for a subnet's text needs to know about it. */
  lemma CidrChars(s: string)
    requires Cidr(s)
    ensures '.' in s && SubnetChars(s)
  {
    hide Itoa, HostBitsClear, SubnetChars, CidrText;
    forall a: nat, b: nat, c: nat, d: nat, length: nat
      ensures '.' in CidrText(a, b, c, d, length) && SubnetChars(CidrText(a, b, c, d, length))
    {
      CidrTextChars(a, b, c, d, length);
    }
  }

  lemma CidrTextChars(a: nat, b: nat, c: nat, d: nat, length: nat)
    ensures '.' in CidrText(a, b, c, d, length) && SubnetChars(CidrText(a, b, c, d, length))
  {
    hide Itoa, SubnetChars;
    SeparatorChars(a);
    SubnetCharsAppend(Itoa(a), b, ".");
    SubnetCharsAppend(Itoa(a) + "." + Itoa(b), c, ".");
    SubnetCharsAppend(Itoa(a) + "." + Itoa(b) + "." + Itoa(c), d, ".");
    SubnetCharsAppend(Itoa(a) + "." + Itoa(b) + "." + Itoa(c) + "." + Itoa(d), length, "/");
  }

  lemma SeparatorChars(n: nat)
    ensures SubnetChars(".") && SubnetChars("/") && SubnetChars(Itoa(n))
  {
  }

  // ---------- Rules as texts ----------

  predicate MatchOk(m: Match) { m.Any? || Cidr(m.subnet) }

  // ---------- Listing lines ----------

  function Header(chain: string): string { Join(["-N", chain], " ") }

  function MatchWords(m: Match): seq<string> {
    match m
    case Any => []
    case Src(s) => ["-s", s]
    case Dst(s) => ["-d", s]
  }

  function LineWords(chain: string, r: Rule): (ws: seq<string>)
    ensures ws != []
  {
    ["-A", chain] + MatchWords(r.on) + ["-j", r.target] +
    if r.target == REJECT then ["--reject-with", "icmp-port-unreachable"] else []
  }

  function Line(chain: string, r: Rule): string { Join(LineWords(chain, r), " ") }

  predicate Mentions(chain: string, r: Rule, text: string) {
    Contains(Line(chain, r), text)
  }

  // ---------- Text agrees with structure ----------

  /** A rule whose line holds nothing but chain names, subnets and the built-in targets. */
  ghost predicate Printable(chain: string, r: Rule) {
    && MatchOk(r.on)
    && (Kind(chain) != ForeignChain)
    && (r.target == ACCEPT || r.target == REJECT || IsNet(r.target) || IsPol(r.target))
  }

  lemma ShortTextMisses(s: string, p: string)
    requires |s| < |p|
    ensures !Contains(s, p)
  {
  }

  lemma NamedMiddle(c: string, prefix: string)
    requires Named(c, prefix) && prefix[0] == 'G' && 'G' !in prefix[1..]
    ensures forall k :: 0 < k < |c| ==> c[k] != 'G'
  {
    forall k | 0 < k < |c| ensures c[k] != 'G' {
      if k < 6 {
        assert c[k] == c[..6][k] == prefix[1..][k - 1];
      }
    }
  }

  /** In a generated name, another text that starts with 'G' can only occur at the front. */
  lemma NameHoldsTextAtFront(c: string, prefix: string, p: string)
    requires Named(c, prefix) && prefix[0] == 'G' && 'G' !in prefix[1..]
    requires p != "" && p[0] == 'G'
    ensures Contains(c, p) <==> |p| <= 26 && c[..|p|] == p
  {
    NamedMiddle(c, prefix);
    forall k | 0 < k <= |c| ensures !OccursAt(c, p, k) {
      if k < |c| { assert c[k + 0] != p[0]; }
    }
    if Contains(c, p) {
      assert OccursAt(c, p, 0);
      assert forall i :: 0 <= i < |p| ==> c[0 + i] == p[i];
      assert c[..|p|] == p;
    } else {
      assert !OccursAt(c, p, 0);
    }
  }

  lemma PrefixFacts()
    ensures NETWORK_PREFIX[0] == POLICY_PREFIX[0] == 'G'
    ensures 'G' !in NETWORK_PREFIX[1..] && 'G' !in POLICY_PREFIX[1..]
    ensures ' ' !in NETWORK_PREFIX && ' ' !in POLICY_PREFIX
    ensures NETWORK_PREFIX != POLICY_PREFIX
  {
    assert NETWORK_PREFIX[2] != POLICY_PREFIX[2];
  }

  lemma NameHasNoBlank(c: string)
    requires Kind(c) != ForeignChain
    ensures ' ' !in c && c != "" && c[0] == 'G'
  {
    if c != BASE {
      PrefixFacts();
      var prefix := if IsNet(c) then NETWORK_PREFIX else POLICY_PREFIX;
      forall k | 0 <= k < |c| ensures c[k] != ' ' {
        if k < 6 { assert c[k] == c[..6][k] == prefix[k]; }
      }
      assert c[0] == c[..6][0] == prefix[0];
    }
  }

  /** One generated name occurs in another only if they are the same name. */
  lemma NameInName(c: string, p: string)
    requires Kind(c) != ForeignChain && (IsNet(p) || IsPol(p))
    ensures Contains(c, p) <==> c == p
  {
    if c != BASE {
      ContainsOfEqualLength(c, p);
    } else {
      ShortTextMisses(c, p);
    }
  }

  /** A name's prefix tells its kind. */
  lemma PrefixInName(c: string, prefix: string)
    requires Kind(c) != ForeignChain && (prefix == NETWORK_PREFIX || prefix == POLICY_PREFIX)
    ensures Contains(c, prefix) <==> Named(c, prefix)
  {
    PrefixFacts();
    if c == BASE {
      assert !OccursAt(c, prefix, 0) by { assert c[0 + 1] != prefix[1]; }
      forall k | 0 < k <= |c| ensures !OccursAt(c, prefix, k) {
        if k < |c| { assert c[k + 0] != prefix[0]; }
      }
    } else {
      NameHoldsTextAtFront(c, if IsNet(c) then NETWORK_PREFIX else POLICY_PREFIX, prefix);
    }
  }

  lemma CidrHasNoName(s: string, p: string)
    requires Cidr(s) && p != "" && p[0] == 'G'
    ensures !Contains(s, p)
  {
    CidrChars(s);
    NoCharNoOccurrence(s, p);
  }

  /** Which words of a line can hold a text that starts with 'G'. */
  lemma MentionsMeans(chain: string, r: Rule, p: string)
    requires Printable(chain, r)
    requires p != "" && p[0] == 'G' && ' ' !in p
    ensures Mentions(chain, r, p) <==> Contains(chain, p) || Contains(r.target, p)
  {
    var ws := LineWords(chain, r);
    ContainsJoin(ws, p);
    NoCharNoOccurrence("-A", p);
    NoCharNoOccurrence("-j", p);
    NoCharNoOccurrence("-s", p);
    NoCharNoOccurrence("-d", p);
    NoCharNoOccurrence("--reject-with", p);
    NoCharNoOccurrence("icmp-port-unreachable", p);
    if !r.on.Any? { CidrHasNoName(r.on.subnet, p); }
    var t := 2 + |MatchWords(r.on)| + 1;
    assert ws[1] == chain && ws[t] == r.target;
    forall i | 0 <= i < |ws| && i != 1 && i != t ensures !Contains(ws[i], p) {
      assert ws[i] == "-A" || ws[i] == "-j" || ws[i] == "-s" || ws[i] == "-d"
          || ws[i] == "--reject-with" || ws[i] == "icmp-port-unreachable"
          || (!r.on.Any? && ws[i] == r.on.subnet);
    }
  }

  lemma BuiltinHasNoName(t: string, p: string)
    requires t == ACCEPT || t == REJECT
    requires p != "" && p[0] == 'G'
    ensures !Contains(t, p)
  {
    NoCharNoOccurrence(t, p);
  }

  /** Searching a line for another chain's name finds exactly the jumps to that chain. */
  lemma MentionsName(chain: string, r: Rule, c: string)
    requires Printable(chain, r) && (IsNet(c) || IsPol(c)) && chain != c
    ensures Mentions(chain, r, c) <==> r.target == c
  {
    NameHasNoBlank(c);
    MentionsMeans(chain, r, c);
    NameInName(chain, c);
    if r.target == ACCEPT || r.target == REJECT {
      BuiltinHasNoName(r.target, c);
    } else {
      NameInName(r.target, c);
    }
  }

  /** Searching a line for a kind's prefix finds exactly the jumps to chains of that kind. */
  lemma MentionsPrefix(chain: string, r: Rule, prefix: string)
    requires Printable(chain, r) && (prefix == NETWORK_PREFIX || prefix == POLICY_PREFIX)
    requires !Named(chain, prefix)
    ensures Mentions(chain, r, prefix) <==> Named(r.target, prefix)
  {
    PrefixFacts();
    MentionsMeans(chain, r, prefix);
    PrefixInName(chain, prefix);
    if r.target == ACCEPT || r.target == REJECT {
      BuiltinHasNoName(r.target, prefix);
    } else {
      PrefixInName(r.target, prefix);
    }
  }

  /** A chain's own header line holds no other chain's name, and the prefix of its own kind only. */
  lemma HeaderMentions(chain: string, p: string)
    requires Kind(chain) != ForeignChain && p != "" && p[0] == 'G' && ' ' !in p
    ensures Contains(Header(chain), p) <==> Contains(chain, p)
  {
    ContainsJoin(["-N", chain], p);
    NoCharNoOccurrence("-N", p);
    assert ["-N", chain][1] == chain;
  }

  /** Splitting a base rule's line on blanks gives its words back, so the word with the network prefix is its target. */
  lemma SplitLineRecoversTarget(r: Rule)
    requires Printable(BASE, r) && IsNet(r.target)
    ensures Split(Line(BASE, r), " ") == LineWords(BASE, r)
    ensures forall i :: 0 <= i < |LineWords(BASE, r)| ==>
              (Contains(LineWords(BASE, r)[i], NETWORK_PREFIX) <==> LineWords(BASE, r)[i] == r.target)
    ensures r.target in LineWords(BASE, r)
  {
    var ws := LineWords(BASE, r);
    PrefixFacts();
    NameHasNoBlank(r.target);
    var t := 2 + |MatchWords(r.on)| + 1;
    assert ws[t] == r.target;
    PrefixInName(r.target, NETWORK_PREFIX);
    PrefixInName(BASE, NETWORK_PREFIX);
    NoCharNoOccurrence("-A", NETWORK_PREFIX);
    NoCharNoOccurrence("-j", NETWORK_PREFIX);
    NoCharNoOccurrence("-s", NETWORK_PREFIX);
    NoCharNoOccurrence("-d", NETWORK_PREFIX);
    if !r.on.Any? {
      CidrHasNoName(r.on.subnet, NETWORK_PREFIX);
      CidrChars(r.on.subnet);
    }
    forall i | 0 <= i < |ws|
      ensures ' ' !in ws[i] && (Contains(ws[i], NETWORK_PREFIX) <==> ws[i] == r.target)
    {
      assert ws[i] == "-A" || ws[i] == "-j" || ws[i] == "-s" || ws[i] == "-d" || ws[i] == BASE
          || ws[i] == r.target || (!r.on.Any? && ws[i] == r.on.subnet);
    }
    assert Words(ws, ' ');
    assert [' '] == " ";
    SplitJoin(ws, ' ');
  }

  /** In a policy chain, searching a line for a subnet is searching the rule's own subnet. */
  lemma MentionsSubnet(chain: string, r: Rule, subnet: string)
    requires IsPol(chain) && r.target == ACCEPT && !r.on.Any? && Cidr(r.on.subnet)
    requires Cidr(subnet)
    ensures Mentions(chain, r, subnet) <==> Contains(r.on.subnet, subnet)
    ensures !Contains(Header(chain), subnet)
  {
    var ws := LineWords(chain, r);
    ContainsJoin(ws, subnet);
    ContainsJoin(["-N", chain], subnet);
    DotlessMisses("-N", subnet);
    DotlessMisses("-A", subnet);
    DotlessMisses("-j", subnet);
    DotlessMisses("-s", subnet);
    DotlessMisses("-d", subnet);
    DotlessMisses(ACCEPT, subnet);
    assert '.' !in chain by {
      forall k | 0 <= k < |chain| ensures chain[k] != '.' {
        if k < 6 { assert chain[k] == chain[..6][k] == POLICY_PREFIX[k]; }
      }
    }
    DotlessMisses(chain, subnet);
    assert ws[3] == r.on.subnet;
    forall i | 0 <= i < |ws| && i != 3 ensures !Contains(ws[i], subnet) {
      assert ws[i] == "-A" || ws[i] == "-j" || ws[i] == "-s" || ws[i] == "-d" || ws[i] == ACCEPT || ws[i] == chain;
    }
  }

  lemma DotlessMisses(w: string, subnet: string)
    requires '.' !in w && Cidr(subnet)
    ensures !Contains(w, subnet)
  {
    CidrChars(subnet);
    var d :| 0 <= d < |subnet| && subnet[d] == '.';
    forall k | 0 <= k <= |w| ensures !OccursAt(w, subnet, k) {
      if k + |subnet| <= |w| { assert w[k + d] != subnet[d]; }
    }
  }
}
