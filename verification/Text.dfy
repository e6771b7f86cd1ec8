/**
  The string operations that the controller and the pod planner rely on:
  substring search, splitting, trimming and decimal numerals, as Go's
  `strings` and `strconv` packages define them.
 */
module Text {

  // ---------- Substring search ----------

  predicate OccursAt(s: string, p: string, k: int) {
    0 <= k && k + |p| <= |s| && forall i :: 0 <= i < |p| ==> s[k + i] == p[i]
  }

  predicate Contains(s: string, p: string) {
    exists k :: 0 <= k <= |s| && OccursAt(s, p, k)
  }

  /** The position of the first occurrence of `p` in `s`, or -1. */
  function Find(s: string, p: string): (i: int)
    ensures i < 0 ==> i == -1 && forall k :: 0 <= k <= |s| ==> !OccursAt(s, p, k)
    ensures 0 <= i ==> OccursAt(s, p, i) && forall k :: 0 <= k < i ==> !OccursAt(s, p, k)
  {
    if |s| < |p| then -1
    else if OccursAt(s, p, 0) then 0
    else if |s| == 0 then -1
    else
      var r := Find(s[1..], p);
      assert forall k :: 1 <= k ==> (OccursAt(s, p, k) <==> OccursAt(s[1..], p, k - 1));
      if r < 0 then -1 else r + 1
  }

  lemma ContainsTransitive(a: string, b: string, c: string)
    requires Contains(a, b) && Contains(b, c)
    ensures Contains(a, c)
  {
    var i :| 0 <= i <= |a| && OccursAt(a, b, i);
    var j :| 0 <= j <= |b| && OccursAt(b, c, j);
    assert forall x :: 0 <= x < |c| ==> a[i + (j + x)] == b[j + x] == c[x];
    assert OccursAt(a, c, i + j);
  }

  lemma ContainsOfEqualLength(a: string, b: string)
    requires |a| == |b|
    ensures Contains(a, b) <==> a == b
  {
    if Contains(a, b) {
      var k :| 0 <= k <= |a| && OccursAt(a, b, k);
      assert k == 0;
    } else {
      assert !OccursAt(a, b, 0);
    }
  }

  // ---------- Splitting and joining ----------

  function Split(s: string, sep: string): (parts: seq<string>)
    requires sep != ""
    ensures parts != []
    decreases |s|
  {
    var i := Find(s, sep);
    if i < 0 then [s] else [s[..i]] + Split(s[i + |sep|..], sep)
  }

  /** Every part of a split is a substring of the text it came from. */
  lemma {:induction false} SplitPartIsContained(s: string, sep: string, k: nat)
    requires sep != "" && k < |Split(s, sep)|
    ensures Contains(s, Split(s, sep)[k])
    decreases |s|
  {
    var i := Find(s, sep);
    if i < 0 {
      assert OccursAt(s, s, 0);
    } else {
      var rest := s[i + |sep|..];
      if k == 0 {
        assert OccursAt(s, s[..i], 0);
      } else {
        SplitPartIsContained(rest, sep, k - 1);
        assert OccursAt(s, rest, i + |sep|);
        ContainsTransitive(s, rest, Split(rest, sep)[k - 1]);
      }
    }
  }

  function Join(parts: seq<string>, sep: string): string
    requires parts != []
  {
    if |parts| == 1 then parts[0] else parts[0] + sep + Join(parts[1..], sep)
  }

  /** Splitting loses nothing and leaves no separator behind. */
  lemma {:induction false} SplitIsFaithful(s: string, sep: string)
    requires sep != ""
    ensures Join(Split(s, sep), sep) == s
    ensures forall k :: 0 <= k < |Split(s, sep)| ==> !Contains(Split(s, sep)[k], sep)
    decreases |s|
  {
    var i := Find(s, sep);
    if 0 <= i {
      var rest := s[i + |sep|..];
      SplitIsFaithful(rest, sep);
      forall k | 0 <= k <= i ensures !OccursAt(s[..i], sep, k) {
        assert k < i ==> !OccursAt(s, sep, k);
        if k + |sep| <= i {
          var x :| 0 <= x < |sep| && s[k + x] != sep[x];
          assert s[..i][k + x] != sep[x];
        }
      }
      assert s == s[..i] + sep + rest by {
        assert s[i..i + |sep|] == sep;
        assert s == s[..i] + s[i..i + |sep|] + rest;
      }
      var parts := Split(s, sep);
      assert parts[1..] == Split(rest, sep);
      forall k | 0 <= k < |parts| ensures !Contains(parts[k], sep) {
        if k > 0 { assert parts[k] == Split(rest, sep)[k - 1]; }
      }
    }
  }

  /** Splitting a text that starts with a separator-free word yields that word first. */
  lemma SplitAtSeparator(w: string, rest: string, c: char)
    requires c !in w
    ensures Split(w + [c] + rest, [c]) == [w] + Split(rest, [c])
  {
    var s := w + [c] + rest;
    var i := Find(s, [c]);
    assert OccursAt(s, [c], |w|);
    assert forall k :: 0 <= k < |w| ==> !OccursAt(s, [c], k) by {
      forall k | 0 <= k < |w| ensures !OccursAt(s, [c], k) {
        assert s[k + 0] == w[k] != [c][0];
      }
    }
    assert i == |w|;
    assert s[..i] == w && s[i + 1..] == rest;
  }

  lemma SplitWithoutSeparator(w: string, sep: string)
    requires sep != "" && !Contains(w, sep)
    ensures Split(w, sep) == [w]
  {
    assert forall k :: 0 <= k <= |w| ==> !OccursAt(w, sep, k);
  }

  lemma NoCharNoOccurrence(w: string, p: string)
    requires p != "" && p[0] !in w
    ensures !Contains(w, p)
  {
    forall k | 0 <= k <= |w| ensures !OccursAt(w, p, k) {
      if k < |w| {
        assert w[k + 0] != p[0];
      }
    }
  }

  /** Some words, and none of them holds the separator. */
  ghost predicate Words(ws: seq<string>, c: char) {
    ws != [] && forall i :: 0 <= i < |ws| ==> c !in ws[i]
  }

  lemma {:induction false} SplitJoin(ws: seq<string>, c: char)
    requires Words(ws, c)
    ensures Split(Join(ws, [c]), [c]) == ws
  {
    if |ws| == 1 {
      NoCharNoOccurrence(ws[0], [c]);
      SplitWithoutSeparator(ws[0], [c]);
    } else {
      SplitAtSeparator(ws[0], Join(ws[1..], [c]), c);
      assert Words(ws[1..], c) by {
        forall i | 0 <= i < |ws[1..]| ensures c !in ws[1..][i] { assert ws[1..][i] == ws[i + 1]; }
      }
      SplitJoin(ws[1..], c);
      assert ws == [ws[0]] + ws[1..];
    }
  }

  lemma OccurrenceChars(s: string, p: string, k: nat)
    requires OccursAt(s, p, k)
    ensures forall j :: k <= j < k + |p| ==> s[j] in p
  {
    forall j | k <= j < k + |p| ensures s[j] in p {
      assert s[k + (j - k)] == p[j - k];
    }
  }

  lemma NoStraddle(a: string, b: string, p: string, k: nat)
    requires ' ' !in p && OccursAt(a + " " + b, p, k)
    ensures k + |p| <= |a| || |a| < k
  {
    OccurrenceChars(a + " " + b, p, k);
    assert (a + " " + b)[|a|] == ' ';
  }

  /** A blank-free pattern cannot straddle a blank. */
  lemma ContainsAcrossBlank(a: string, b: string, p: string)
    requires p != "" && ' ' !in p
    ensures Contains(a + " " + b, p) <==> Contains(a, p) || Contains(b, p)
  {
    var s := a + " " + b;
    if Contains(a, p) {
      var k :| 0 <= k <= |a| && OccursAt(a, p, k);
      assert OccursAt(s, p, k);
    }
    if Contains(b, p) {
      var k :| 0 <= k <= |b| && OccursAt(b, p, k);
      assert forall x :: 0 <= x < |p| ==> s[|a| + 1 + k + x] == b[k + x] == p[x];
      assert OccursAt(s, p, |a| + 1 + k);
    }
    if Contains(s, p) {
      var k :| 0 <= k <= |s| && OccursAt(s, p, k);
      NoStraddle(a, b, p, k);
      if k + |p| <= |a| {
        assert OccursAt(a, p, k);
      } else {
        assert forall x :: 0 <= x < |p| ==> b[k - |a| - 1 + x] == s[k + x] == p[x];
        assert OccursAt(b, p, k - |a| - 1);
      }
    }
  }

  predicate AnyContains(ws: seq<string>, p: string) {
    exists i :: 0 <= i < |ws| && Contains(ws[i], p)
  }

  /** Searching a line for a blank-free pattern is searching its words. */
  lemma {:induction false} ContainsJoin(ws: seq<string>, p: string)
    requires ws != [] && p != "" && ' ' !in p
    ensures Contains(Join(ws, " "), p) <==> AnyContains(ws, p)
  {
    if |ws| > 1 {
      ContainsAcrossBlank(ws[0], Join(ws[1..], " "), p);
      ContainsJoin(ws[1..], p);
      if AnyContains(ws[1..], p) {
        var i :| 0 <= i < |ws[1..]| && Contains(ws[1..][i], p);
        assert ws[i + 1] == ws[1..][i];
      }
      if AnyContains(ws, p) && !Contains(ws[0], p) {
        var i :| 0 <= i < |ws| && Contains(ws[i], p);
        assert ws[1..][i - 1] == ws[i];
      }
    }
  }

  // ---------- Trimming ----------

  predicate IsSpace(c: char) {
    c == ' ' || c == '\t' || c == '\n' || c == '\r' || c as int in {0x0B, 0x0C, 0x85, 0xA0}
  }

  function TrimLeft(s: string): (r: string)
    ensures r == "" || !IsSpace(r[0])
    ensures |r| <= |s| && r == s[|s| - |r|..]
    ensures forall k :: 0 <= k < |s| - |r| ==> IsSpace(s[k])
  {
    if s != "" && IsSpace(s[0]) then TrimLeft(s[1..]) else s
  }

  function TrimRight(s: string): (r: string)
    ensures r == "" || !IsSpace(r[|r| - 1])
    ensures |r| <= |s| && r == s[..|r|]
    ensures forall k :: |r| <= k < |s| ==> IsSpace(s[k])
  {
    if s != "" && IsSpace(s[|s| - 1]) then TrimRight(s[..|s| - 1]) else s
  }

  function Trim(s: string): (r: string)
    ensures r == "" || (!IsSpace(r[0]) && !IsSpace(r[|r| - 1]))
  {
    TrimRight(TrimLeft(s))
  }

  lemma TrimIsContained(s: string)
    ensures Contains(s, Trim(s))
  {
    hide TrimLeft, TrimRight;
    var l := TrimLeft(s);
    var r := TrimRight(l);
    assert OccursAt(s, l, |s| - |l|);
    assert OccursAt(l, r, 0);
    ContainsTransitive(s, l, r);
  }

  lemma TrimStays(s: string)
    requires s != "" && !IsSpace(s[0]) && !IsSpace(s[|s| - 1])
    ensures Trim(s) == s
  {
  }

  /** The one-character texts that trimming empties: tab to carriage return, blank, next line, no-break space. */
  lemma BlanksAre(c: char)
    ensures Trim([c]) == "" <==> c as int in {9, 10, 11, 12, 13, 32, 133, 160}
    ensures IsSpace(c) <==> c as int in {9, 10, 11, 12, 13, 32, 133, 160}
  {
    assert [c][1..] == "" && [c][..0] == "";
  }

  /** Trimming takes blanks off both ends, all of them, and nothing else. */
  lemma TrimMeans(s: string) returns (i: nat, j: nat)
    ensures i <= j <= |s| && Trim(s) == s[i..j]
    ensures forall k :: 0 <= k < i || j <= k < |s| ==> IsSpace(s[k])
    ensures i < j ==> !IsSpace(s[i]) && !IsSpace(s[j - 1])
  {
    hide TrimLeft, TrimRight, IsSpace;
    var l := TrimLeft(s);
    var r := TrimRight(l);
    i, j := |s| - |l|, |s| - |l| + |r|;
    assert forall k :: 0 <= k < |l| ==> l[k] == s[i + k];
    forall k | j <= k < |s| ensures IsSpace(s[k]) { assert s[k] == l[k - i]; }
  }

  lemma TrimIdempotent(s: string)
    ensures Trim(Trim(s)) == Trim(s)
  {
  }

  // ---------- Decimal numerals ----------

  function Digit(d: nat): (c: char)
    requires d < 10
    ensures '0' <= c <= '9' && c as int - '0' as int == d
  {
    (d + '0' as int) as char
  }

  function Itoa(n: nat): (s: string)
    ensures s != ""
    ensures forall i :: 0 <= i < |s| ==> '0' <= s[i] <= '9'
  {
    if n < 10 then [Digit(n)] else Itoa(n / 10) + [Digit(n % 10)]
  }

  predicate IsNumeral(s: string) {
    s != "" && forall i :: 0 <= i < |s| ==> '0' <= s[i] <= '9'
  }

  /** `Atoi` with its error dropped: 0 on anything that is not a numeral, signed or not. */
  function Atoi(s: string): int {
    if IsNumeral(s) then Value(s)
    else if s != "" && (s[0] == '+' || s[0] == '-') && IsNumeral(s[1..]) then
      if s[0] == '-' then 0 - Value(s[1..]) else Value(s[1..])
    else 0
  }

  /** `Itoa` on any integer. */
  function Numeral(n: int): string {
    if n < 0 then "-" + Itoa(-n) else Itoa(n)
  }

  function Value(s: string): nat
    requires forall i :: 0 <= i < |s| ==> '0' <= s[i] <= '9'
  {
    if s == "" then 0 else Value(s[..|s| - 1]) * 10 + (s[|s| - 1] as int - '0' as int)
  }

  lemma {:induction false} AtoiItoa(n: nat)
    ensures Atoi(Itoa(n)) == n
  {
    var s := Itoa(n);
    if n < 10 {
      assert Value(s[..0]) == 0;
    } else {
      AtoiItoa(n / 10);
      assert s[..|s| - 1] == Itoa(n / 10);
    }
  }

  /** `Atoi` undoes `Numeral` on all integers, takes a plus sign, and gives 0 on anything else. */
  lemma AtoiMeans(n: int)
    ensures Atoi(Numeral(n)) == n
    ensures n >= 0 ==> Atoi("+" + Itoa(n)) == n
    ensures forall s :: !IsNumeral(s) && (s == "" || (s[0] != '+' && s[0] != '-') || !IsNumeral(s[1..])) ==>
            Atoi(s) == 0
  {
    var m := if n < 0 then -n else n;
    AtoiItoa(m);
    assert ("-" + Itoa(m))[1..] == Itoa(m) && ("+" + Itoa(m))[1..] == Itoa(m);
    assert !IsNumeral("-" + Itoa(m)) && !IsNumeral("+" + Itoa(m)) by {
      assert ("-" + Itoa(m))[0] == '-' && ("+" + Itoa(m))[0] == '+';
    }
  }

  /** Numerals of different numbers differ, whatever text precedes them. */
  lemma ItoaInjective(prefix: string, a: nat, b: nat)
    requires prefix + Itoa(a) == prefix + Itoa(b)
    ensures a == b
  {
    AtoiItoa(a);
    AtoiItoa(b);
    assert (prefix + Itoa(a))[|prefix|..] == Itoa(a);
    assert (prefix + Itoa(b))[|prefix|..] == Itoa(b);
  }
}
