/**
  The "smart" choice of a networking solution: downlink usage per solution
  from a series of counter snapshots, and the sort that picks the smallest.
 */
module NetworkUsage {
  import opened Options
  import opened Sequences

  // ---------- Counters ----------

  const TWO_63 := 0x8000_0000_0000_0000
  const TWO_64 := 0x1_0000_0000_0000_0000

  type U64 = n: nat | n < TWO_64

  datatype Interface = Interface(name: string, rx: U64)

  type Snapshot = seq<Interface>

  /** `int(now - before)` on unsigned 64-bit counters: the difference wraps around and is read as signed. */
  function Delta(now: U64, before: U64): (d: int)
    ensures -TWO_63 <= d < TWO_63 && (d - (now - before)) % TWO_64 == 0
    ensures before <= now < before + TWO_63 ==> d == now - before
  {
    var d: int := if now >= before then now - before else now - before + TWO_64;
    if d < TWO_63 then d else d - TWO_64
  }

  /** The first four characters of an interface name tell its solution. */
  function Solution(i: Interface): string
    requires |i.name| >= 4
  {
    i.name[..4]
  }

  const SOLUTIONS: set<string> := {"flan", "cali", "weav"}

  ghost predicate Sliceable(s: Snapshot) {
    forall i :: 0 <= i < |s| ==> |s[i].name| >= 4
  }

  /** The loop's variables: usage per solution, last counter per interface, and the difference carried along. */
  datatype Tally = Tally(m: map<string, int>, rx: map<string, U64>, downlink: int)

  const START: Tally := Tally(map["flan" := 0, "cali" := 0, "weav" := 0], map[], 0)

  function Visit(a: Tally, i: Interface): Tally
    requires |i.name| >= 4
  {
    if Solution(i) !in a.m then a
    else
      var d := if i.name in a.rx then Delta(i.rx, a.rx[i.name]) else a.downlink;
      Tally(a.m[Solution(i) := d], a.rx[i.name := i.rx], d)
  }

  function VisitAll(a: Tally, s: Snapshot): Tally
    requires Sliceable(s)
  {
    if s == [] then a else Visit(VisitAll(a, Init(s)), Last(s))
  }

  function Tallied(snaps: seq<Snapshot>): Tally
    requires AllSliceable(snaps)
  {
    if snaps == [] then START else VisitAll(Tallied(Init(snaps)), Last(snaps))
  }

  // ---------- The listings as one sequence ----------

  ghost predicate AllSliceable(snaps: seq<Snapshot>) {
    forall k :: 0 <= k < |snaps| ==> Sliceable(snaps[k])
  }

  /** All interfaces in the order in which they are listed. */
  function Listing(snaps: seq<Snapshot>): Snapshot {
    if snaps == [] then [] else Listing(Init(snaps)) + Last(snaps)
  }

  lemma {:induction false} ListingIsSliceable(snaps: seq<Snapshot>)
    requires AllSliceable(snaps)
    ensures Sliceable(Listing(snaps))
  {
    if snaps != [] { ListingIsSliceable(Init(snaps)); }
  }

  lemma {:induction false} VisitAllAppend(a: Tally, s: Snapshot, t: Snapshot)
    requires Sliceable(s) && Sliceable(t)
    ensures VisitAll(a, s + t) == VisitAll(VisitAll(a, s), t)
  {
    hide Visit;
    if t == [] {
      assert s + t == s;
    } else {
      VisitAllAppend(a, s, Init(t));
      assert Init(s + t) == s + Init(t) && Last(s + t) == Last(t);
    }
  }

  lemma {:induction false} TalliedIsListing(snaps: seq<Snapshot>)
    requires AllSliceable(snaps)
    ensures Sliceable(Listing(snaps)) && Tallied(snaps) == VisitAll(START, Listing(snaps))
  {
    hide VisitAll;
    ListingIsSliceable(snaps);
    if snaps == [] {
      VisitNothing();
    } else {
      TalliedIsListing(Init(snaps));
      VisitAllAppend(START, Listing(Init(snaps)), Last(snaps));
    }
  }

  lemma VisitNothing()
    ensures VisitAll(START, []) == START
  {
  }

  // ---------- What the tally holds ----------

  /** The interface belongs to one of the three solutions. */
  predicate Known(name: string) {
    |name| >= 4 && name[..4] in SOLUTIONS
  }

  /** The counter with which an interface was listed last, if it was listed. */
  function Seen(s: Snapshot, name: string): Option<U64> {
    if s == [] then None
    else if Last(s).name == name then Some(Last(s).rx)
    else Seen(Init(s), name)
  }

  /**
    The difference computed last: of the last listing that had an earlier one of
    the same known interface; 0 before.
   */
  function LastDifference(s: Snapshot): int {
    if s == [] then 0
    else
      var i, seen := Last(s), Seen(Init(s), Last(s).name);
      if Known(i.name) && seen.Some? then Delta(i.rx, seen.value) else LastDifference(Init(s))
  }

  /** Where the last interface of a solution is listed, or -1. */
  function LastIndex(s: Snapshot, solution: string): (i: int)
    requires Sliceable(s)
    ensures -1 <= i < |s| && (0 <= i ==> Solution(s[i]) == solution)
    ensures forall k :: i < k < |s| ==> Solution(s[k]) != solution
  {
    if s == [] then -1
    else if Solution(Last(s)) == solution then |s| - 1
    else LastIndex(Init(s), solution)
  }

  /**
    The counters kept are those of the known interfaces' last listings; the
    difference carried is the last computed.
   */
  lemma {:induction false} CountersHeld(s: Snapshot)
    requires Sliceable(s)
    ensures var a := VisitAll(START, s);
            && a.m.Keys == SOLUTIONS && a.downlink == LastDifference(s)
            && forall name :: (name in a.rx <==> Known(name) && Seen(s, name).Some?) &&
                              (name in a.rx ==> Seen(s, name) == Some(a.rx[name]))
  {
    hide Delta;
    if s != [] { CountersHeld(Init(s)); }
  }

  /** What is recorded for a solution: the difference that was the latest when its last interface had been visited. */
  lemma {:induction false} UsageHeld(s: Snapshot, p: string)
    requires Sliceable(s) && p in SOLUTIONS
    ensures var a, i := VisitAll(START, s), LastIndex(s, p);
            p in a.m && a.m[p] == if i < 0 then 0 else LastDifference(s[..i + 1])
  {
    hide LastDifference, Delta;
    CountersHeld(s);
    if s != [] {
      UsageHeld(Init(s), p);
      if Solution(Last(s)) == p {
        assert s[..|s|] == s;
        OwnDifference(Init(s), Last(s));
      } else {
        var i := LastIndex(Init(s), p);
        assert Init(s)[..i + 1] == s[..i + 1];
      }
    }
  }

  lemma OwnDifference(s: Snapshot, i: Interface)
    requires Sliceable(s) && |i.name| >= 4 && Solution(i) in SOLUTIONS
    ensures var b := Visit(VisitAll(START, s), i); Solution(i) in b.m && b.m[Solution(i)] == LastDifference(s + [i])
  {
    hide Delta;
    CountersHeld(s);
    assert Init(s + [i]) == s && Last(s + [i]) == i;
  }

  /**
    Recorded usage over any snapshots.  For a solution that is never listed it
    is 0.  Otherwise let the solution's last listing be at `i`: if that
    interface was listed before, the record is the difference to its previous
    counter; if not, it is the difference computed last for whatever interface
    came before, or 0.
   */
  lemma RecordedUsage(snaps: seq<Snapshot>, p: string)
    requires AllSliceable(snaps) && p in SOLUTIONS
    ensures var s, m := Listing(snaps), Tallied(snaps).m;
            Sliceable(s) && p in m &&
            var i := LastIndex(s, p);
            && (i < 0 ==> m[p] == 0)
            && (0 <= i && Seen(s[..i], s[i].name).Some? ==> m[p] == Delta(s[i].rx, Seen(s[..i], s[i].name).value))
            && (0 <= i && Seen(s[..i], s[i].name).None? ==> m[p] == LastDifference(s[..i]))
  {
    hide Delta, Seen, VisitAll, Tallied, LastDifference, LastIndex;
    TalliedIsListing(snaps);
    var s := Listing(snaps);
    var i := LastIndex(s, p);
    UsageHeld(s, p);
    if 0 <= i { LastDifferenceAt(s, i); }
  }

  /** The listings with the counter `v` at `i`. */
  function WithCounter(s: Snapshot, i: nat, v: U64): (u: Snapshot)
    requires i < |s|
    ensures |u| == |s| && u[i].name == s[i].name && u[i].rx == v && u[..i] == s[..i]
    ensures forall k :: 0 <= k < |s| && k != i ==> u[k] == s[k]
    ensures Sliceable(s) ==> Sliceable(u)
  {
    s[i := Interface(s[i].name, v)]
  }

  /** What would be recorded had the listing at `i` shown the counter `v`. */
  function RecordedWith(s: Snapshot, i: nat, p: string, v: U64): int
    requires Sliceable(s) && i < |s| && p in SOLUTIONS
  {
    UsageHeld(WithCounter(s, i, v), p);
    VisitAll(START, WithCounter(s, i, v)).m[p]
  }

  lemma LastIndexIs(s: Snapshot, i: nat, p: string)
    requires Sliceable(s) && i < |s| && Solution(s[i]) == p && forall k :: i < k < |s| ==> Solution(s[k]) != p
    ensures LastIndex(s, p) == i
  {
  }

  lemma LastDifferenceAt(s: Snapshot, i: nat)
    requires i < |s| && Known(s[i].name)
    ensures LastDifference(s[..i + 1]) ==
            if Seen(s[..i], s[i].name).Some? then Delta(s[i].rx, Seen(s[..i], s[i].name).value)
            else LastDifference(s[..i])
  {
    hide Delta, Seen, Known;
    Prefix(s, i);
  }

  lemma RecordedWithIs(s: Snapshot, i: nat, p: string, v: U64)
    requires Sliceable(s) && p in SOLUTIONS && i == LastIndex(s, p)
    ensures RecordedWith(s, i, p, v) ==
            if Seen(s[..i], s[i].name).Some? then Delta(v, Seen(s[..i], s[i].name).value) else LastDifference(s[..i])
  {
    hide Delta, Seen, VisitAll, LastIndex, LastDifference, WithCounter;
    var u := WithCounter(s, i, v);
    LastIndexIs(u, i, p);
    UsageHeld(u, p);
    LastDifferenceAt(u, i);
  }

  /** Whatever counter the listing at `i` shows, the record is its difference to `c`. */
  ghost predicate Measures(s: Snapshot, i: nat, p: string, c: U64)
    requires Sliceable(s) && i < |s| && p in SOLUTIONS
  {
    forall v: U64 :: RecordedWith(s, i, p, v) == Delta(v, c)
  }

  /**
    So the record measures the solution's last-listed interface iff an earlier
    listing has that interface: only then does it follow that interface's
    counter, as the difference to a fixed number.
   */
  lemma MeasuredIffListedBefore(s: Snapshot, i: nat, p: string)
    requires Sliceable(s) && p in SOLUTIONS && i == LastIndex(s, p)
    ensures (exists c: U64 :: Measures(s, i, p, c)) <==> Has(s[..i], s[i].name)
    ensures Has(s[..i], s[i].name) ==>
              Seen(s[..i], s[i].name).Some? && Measures(s, i, p, Seen(s[..i], s[i].name).value)
  {
    hide RecordedWith, Delta, Seen, LastIndex, LastDifference, Has;
    SeenHas(s[..i], s[i].name);
    forall v: U64
      ensures RecordedWith(s, i, p, v) ==
              if Seen(s[..i], s[i].name).Some? then Delta(v, Seen(s[..i], s[i].name).value) else LastDifference(s[..i])
    {
      RecordedWithIs(s, i, p, v);
    }
    if Has(s[..i], s[i].name) {
      var c: U64 := Seen(s[..i], s[i].name).value;
      assert Measures(s, i, p, c);
    } else {
      forall c: U64 ensures !Measures(s, i, p, c) {
        var zero: U64, one: U64 := 0, 1;
        DeltaMoves(c);
        assert RecordedWith(s, i, p, zero) == RecordedWith(s, i, p, one);
        assert Delta(zero, c) != Delta(one, c);
      }
    }
  }

  lemma DeltaMoves(c: U64)
    ensures Delta(0, c) != Delta(1, c)
  {
  }

  // ---------- Snapshots of the same interfaces ----------

  ghost predicate Distinct(s: Snapshot) {
    forall i, j :: 0 <= i < j < |s| ==> s[i].name != s[j].name
  }

  ghost predicate Has(s: Snapshot, name: string) {
    exists i :: 0 <= i < |s| && s[i].name == name
  }

  lemma {:induction false} SeenHas(s: Snapshot, name: string)
    ensures Seen(s, name).Some? <==> Has(s, name)
  {
    if s != [] {
      SeenHas(Init(s), name);
      if Has(Init(s), name) {
        var i :| 0 <= i < |Init(s)| && Init(s)[i].name == name;
        assert s[i].name == name;
      }
      if Last(s).name == name { assert s[|s| - 1].name == name; }
      if Has(s, name) && Last(s).name != name {
        var i :| 0 <= i < |s| && s[i].name == name;
        assert Init(s)[i].name == name;
      }
    }
  }

  /** The last snapshot that lists the interface. */
  ghost predicate LatestIn(snaps: seq<Snapshot>, k: nat, name: string) {
    k < |snaps| && Has(snaps[k], name) && forall l :: k < l < |snaps| ==> !Has(snaps[l], name)
  }

  lemma {:induction false} LatestSeen(snaps: seq<Snapshot>, k: nat, name: string)
    requires LatestIn(snaps, k, name)
    ensures Seen(Listing(snaps), name) == Seen(snaps[k], name) && Seen(snaps[k], name).Some?
  {
    hide Has, Seen;
    var before, s, n := Init(snaps), Last(snaps), |snaps| - 1;
    SeenAppend(Listing(before), s, name);
    SeenHas(s, name);
    if k < n {
      assert !Has(snaps[n], name);
      assert forall l :: 0 <= l < n ==> before[l] == snaps[l];
      LatestSeen(before, k, name);
    }
  }

  lemma {:induction false} NeverSeen(snaps: seq<Snapshot>, name: string)
    requires forall k :: 0 <= k < |snaps| ==> !Has(snaps[k], name)
    ensures Seen(Listing(snaps), name).None?
  {
    hide Has;
    if snaps != [] {
      assert forall k :: 0 <= k < |snaps| - 1 ==> Init(snaps)[k] == snaps[k];
      NeverSeen(Init(snaps), name);
      assert Last(snaps) == snaps[|snaps| - 1];
      SeenAppend(Listing(Init(snaps)), Last(snaps), name);
      SeenHas(Last(snaps), name);
    }
  }

  lemma {:induction false} HasLatest(snaps: seq<Snapshot>, k: nat, name: string) returns (l: nat)
    requires k < |snaps| && Has(snaps[k], name)
    ensures LatestIn(snaps, l, name)
    decreases |snaps| - k
  {
    hide Has;
    l := k;
    if m :| k < m < |snaps| && Has(snaps[m], name) { l := HasLatest(snaps, m, name); }
  }

  ghost predicate ListedIn(snaps: seq<Snapshot>, name: string) {
    exists k :: 0 <= k < |snaps| && Has(snaps[k], name)
  }

  lemma ListingSeen(snaps: seq<Snapshot>, name: string)
    ensures Seen(Listing(snaps), name).Some? <==> ListedIn(snaps, name)
    ensures forall k: nat :: LatestIn(snaps, k, name) ==> Seen(snaps[k], name) == Seen(Listing(snaps), name)
  {
    hide Has, Seen, Listing;
    if k :| 0 <= k < |snaps| && Has(snaps[k], name) {
      var l := HasLatest(snaps, k, name);
      LatestSeen(snaps, l, name);
    } else {
      NeverSeen(snaps, name);
    }
    forall k: nat | LatestIn(snaps, k, name)
      ensures Seen(snaps[k], name) == Seen(Listing(snaps), name)
    {
      LatestSeen(snaps, k, name);
    }
  }

  lemma CounterHeld(s: Snapshot, name: string)
    requires Sliceable(s)
    ensures var rx := VisitAll(START, s).rx;
            (name in rx <==> Known(name) && Seen(s, name).Some?) && (name in rx ==> Seen(s, name) == Some(rx[name]))
  {
    hide Seen, Known, VisitAll, LastDifference;
    CountersHeld(s);
  }

  /** The counters kept after any snapshots: those of the known interfaces listed so far, as last listed. */
  lemma TalliedCounters(snaps: seq<Snapshot>, name: string)
    requires AllSliceable(snaps)
    ensures var rx := Tallied(snaps).rx;
            && (name in rx <==> Known(name) && ListedIn(snaps, name))
            && (name in rx ==> forall k: nat :: LatestIn(snaps, k, name) ==> Seen(snaps[k], name) == Some(rx[name]))
  {
    hide Seen, VisitAll, Tallied, ListedIn, Listing, Known;
    TalliedIsListing(snaps);
    CounterHeld(Listing(snaps), name);
    ListingSeen(snaps, name);
  }

  lemma {:induction false} SeenAppend(a: Snapshot, b: Snapshot, name: string)
    ensures Seen(a + b, name) == if Seen(b, name).Some? then Seen(b, name) else Seen(a, name)
  {
    if b == [] {
      assert a + b == a;
    } else {
      SeenAppend(a, Init(b), name);
      assert Init(a + b) == a + Init(b) && Last(a + b) == Last(b);
    }
  }

  lemma {:induction false} SeenAt(s: Snapshot, i: nat)
    requires Distinct(s) && i < |s|
    ensures Seen(s, s[i].name) == Some(s[i].rx)
  {
    if i < |s| - 1 { SeenAt(Init(s), i); }
  }

  lemma {:induction false} LastIndexAppend(a: Snapshot, b: Snapshot, p: string)
    requires Sliceable(a) && Sliceable(b)
    ensures LastIndex(a + b, p) == if LastIndex(b, p) >= 0 then |a| + LastIndex(b, p) else LastIndex(a, p)
  {
    if b == [] {
      assert a + b == a;
    } else {
      LastIndexAppend(a, Init(b), p);
      assert Init(a + b) == a + Init(b) && Last(a + b) == Last(b);
    }
  }

  /** All snapshots list the same interfaces, each once, with names that can be cut to four characters. */
  ghost predicate SameInterfaces(snaps: seq<Snapshot>) {
    && (forall k :: 0 <= k < |snaps| ==> Sliceable(snaps[k]) && Distinct(snaps[k]))
    && forall k, l, name :: 0 <= k < |snaps| && 0 <= l < |snaps| && Has(snaps[k], name) ==> Has(snaps[l], name)
  }

  /** A solution without interfaces in the last snapshot has none in any. */
  lemma NeverListed(snaps: seq<Snapshot>, k: nat, p: string)
    requires SameInterfaces(snaps) && k < |snaps| && Sliceable(Last(snaps)) && LastIndex(Last(snaps), p) < 0
    ensures Sliceable(snaps[k]) && LastIndex(snaps[k], p) < 0
  {
    var s, t := Last(snaps), snaps[k];
    assert s == snaps[|snaps| - 1];
    forall i | 0 <= i < |t| ensures Solution(t[i]) != p {
      assert Has(t, t[i].name);
      assert Has(s, t[i].name);
      var j :| 0 <= j < |s| && s[j].name == t[i].name;
      assert Solution(s[j]) != p;
    }
  }

  lemma {:induction false} NotInListing(snaps: seq<Snapshot>, p: string)
    requires AllSliceable(snaps) && forall k :: 0 <= k < |snaps| ==> LastIndex(snaps[k], p) < 0
    ensures Sliceable(Listing(snaps)) && LastIndex(Listing(snaps), p) < 0
  {
    ListingIsSliceable(snaps);
    if snaps != [] {
      NotInListing(Init(snaps), p);
      LastIndexAppend(Listing(Init(snaps)), Last(snaps), p);
    }
  }

  /** What a solution's usage should be: how much its last-listed interface received between the last two snapshots. */
  function Usage(snaps: seq<Snapshot>, p: string): int
    requires |snaps| >= 2 && AllSliceable(snaps)
  {
    var s, t := snaps[|snaps| - 1], snaps[|snaps| - 2];
    var i := LastIndex(s, p);
    if i < 0 || Seen(t, s[i].name).None? then 0 else Delta(s[i].rx, Seen(t, s[i].name).value)
  }

  /** The counter before a listing in the last snapshot is that of the snapshot before. */
  lemma PreviousCounter(snaps: seq<Snapshot>, i: nat)
    requires |snaps| >= 2 && SameInterfaces(snaps) && i < |Last(snaps)|
    ensures var s, t := snaps[|snaps| - 1], snaps[|snaps| - 2];
            Seen(t, s[i].name).Some? && Seen(Listing(Init(snaps)) + s[..i], s[i].name) == Seen(t, s[i].name)
  {
    var s, t := snaps[|snaps| - 1], snaps[|snaps| - 2];
    var name := s[i].name;
    SeenAppend(Listing(Init(snaps)), s[..i], name);
    SeenHas(s[..i], name);
    assert !Has(s[..i], name);
    assert Init(snaps)[|snaps| - 2] == t;
    SeenAppend(Listing(Init(Init(snaps))), t, name);
    SeenHas(t, name);
    assert Has(s, name);
  }

  lemma ListingSnoc(snaps: seq<Snapshot>)
    requires snaps != []
    ensures Listing(snaps) == Listing(Init(snaps)) + Last(snaps)
  {
  }

  lemma UsageAfter(before: Snapshot, s: Snapshot, i: nat, p: string, c: U64)
    requires Sliceable(before) && Sliceable(s) && p in SOLUTIONS && i == LastIndex(s, p)
    requires Seen(before + s[..i], s[i].name) == Some(c)
    ensures var m := VisitAll(START, before + s).m; p in m && m[p] == Delta(s[i].rx, c)
  {
    hide Delta, VisitAll, Seen, LastIndex, LastDifference;
    var all, k := before + s, |before| + i;
    LastIndexAppend(before, s, p);
    UsageHeld(all, p);
    assert all[..k] == before + s[..i] && all[k] == s[i];
    LastDifferenceAt(all, k);
  }

  lemma ListedUsage(snaps: seq<Snapshot>, p: string)
    requires |snaps| >= 2 && SameInterfaces(snaps) && p in SOLUTIONS && LastIndex(Last(snaps), p) >= 0
    ensures p in Tallied(snaps).m && Tallied(snaps).m[p] == Usage(snaps, p)
  {
    hide Delta, Has, Tallied, VisitAll, Seen, LastIndex, Distinct, Listing;
    var s := Last(snaps);
    var i := LastIndex(s, p);
    ListingSnoc(snaps);
    TalliedIsListing(snaps);
    ListingIsSliceable(Init(snaps));
    PreviousCounter(snaps, i);
    UsageAfter(Listing(Init(snaps)), s, i, p, Seen(snaps[|snaps| - 2], s[i].name).value);
  }

  /**
    Over snapshots of the same interfaces, recorded usage is that difference, or
    0 for a solution without interfaces.
   */
  lemma TalliedUsage(snaps: seq<Snapshot>, p: string)
    requires |snaps| >= 2 && SameInterfaces(snaps) && p in SOLUTIONS
    ensures p in Tallied(snaps).m && Tallied(snaps).m[p] == Usage(snaps, p)
  {
    hide Delta, Has, Tallied, Seen, LastIndex, LastDifference, Distinct, Listing;
    if LastIndex(Last(snaps), p) >= 0 {
      ListedUsage(snaps, p);
    } else {
      forall k | 0 <= k < |snaps| ensures LastIndex(snaps[k], p) < 0 { NeverListed(snaps, k, p); }
      NotInListing(snaps, p);
      RecordedUsage(snaps, p);
    }
  }

  /** Without the same interfaces in every snapshot a new one is charged with the difference of another. */
  lemma NewInterfaceIsMischarged()
    ensures var snaps := [[Interface("flannel0", 0)], [Interface("flannel0", 100), Interface("cali0", 7)]];
            Sliceable(snaps[0]) && Sliceable(snaps[1]) && "cali" in Tallied(snaps).m && Tallied(snaps).m["cali"] == 100
  {
    var x, y, z := Interface("flannel0", 0), Interface("flannel0", 100), Interface("cali0", 7);
    assert Solution(x) == Solution(y) == "flan" && Solution(z) == "cali";
    assert Init([x]) == [] && Init([y, z]) == [y] && Init([y]) == [];
    assert Init([[x], [y, z]]) == [[x]] && Init([[x]]) == [];
    assert VisitAll(START, [x]) == Visit(START, x);
    assert Tallied([[x]]) == VisitAll(START, [x]);
    var a := Visit(START, x);
    assert VisitAll(a, [y]) == Visit(a, y);
    assert VisitAll(a, [y, z]) == Visit(Visit(a, y), z);
    assert Tallied([[x], [y, z]]) == VisitAll(a, [y, z]);
    assert Delta(100, 0) == 100;
  }

  // ---------- Sorting keys by value ----------

  /** utils.sortedMap: the map and the slice of its keys being sorted. */
  class SortedMap {
    const m: map<string, int>
    const s: array<string>

    constructor (m: map<string, int>, keys: seq<string>)
      requires Enumerates(keys, m.Keys)
      ensures this.m == m && fresh(s) && s[..] == keys
    {
      this.m := m;
      this.s := new string[|keys|](i requires 0 <= i < |keys| => keys[i]);
      new;
      assert s[..] == keys;
    }

    ghost predicate Valid()
      reads s
    {
      forall i :: 0 <= i < s.Length ==> s[i] in m
    }

    predicate Less(i: nat, j: nat)
      requires i < s.Length && j < s.Length && Valid()
      reads s
    {
      m[s[i]] < m[s[j]]
    }

    method Swap(i: nat, j: nat)
      requires i < s.Length && j < s.Length
      modifies s
      ensures s[..] == old(s[..])[i := old(s[j])][j := old(s[i])]
      ensures multiset(s[..]) == multiset(old(s[..]))
    {
      s[i], s[j] := s[j], s[i];
    }

    /** Ascending by value up to `n`, leaving out a comparison with the element at `gap`. */
    ghost predicate Ascending(n: nat, gap: int)
      requires n <= s.Length && Valid()
      reads s
    {
      forall i, j :: 0 <= i < j < n && j != gap ==> m[s[i]] <= m[s[j]]
    }

    /** sort.Sort on a short slice: insertion by neighbouring swaps. */
    method Sort()
      requires Valid()
      modifies s
      ensures Valid() && Ascending(s.Length, -1)
      ensures multiset(s[..]) == multiset(old(s[..]))
    {
      var i := 1;
      while i < s.Length
        invariant 0 < i && Valid() && multiset(s[..]) == multiset(old(s[..]))
        invariant Ascending(if i <= s.Length then i else s.Length, -1)
      {
        SiftDown(i);
        i := i + 1;
      }
    }

    method SiftDown(i: nat)
      requires 0 < i < s.Length && Valid() && Ascending(i, -1)
      modifies s
      ensures Valid() && Ascending(i + 1, -1)
      ensures multiset(s[..]) == multiset(old(s[..]))
    {
      var j := i;
      while j > 0 && Less(j, j - 1)
        invariant 0 <= j <= i && Valid() && multiset(s[..]) == multiset(old(s[..]))
        invariant Ascending(i + 1, j)
        invariant forall k :: j < k <= i ==> m[s[j]] <= m[s[k]]
      {
        Swap(j, j - 1);
        j := j - 1;
      }
    }
  }

  method SortedKeys(m: map<string, int>, keys: seq<string>) returns (r: seq<string>)
    requires Enumerates(keys, m.Keys)
    ensures multiset(r) == multiset(keys)
    ensures forall k :: k in r <==> k in m
    ensures forall i, j :: 0 <= i < j < |r| ==> r[i] in m && r[j] in m && m[r[i]] <= m[r[j]]
  {
    var sm := new SortedMap(m, keys);
    assert forall i :: 0 <= i < sm.s.Length ==> sm.s[i] == keys[i];
    sm.Sort();
    r := sm.s[..];
    SameMembers(r, keys);
  }

  lemma SameMembers<T>(a: seq<T>, b: seq<T>)
    requires multiset(a) == multiset(b)
    ensures forall x :: x in a <==> x in b
    ensures |a| == |b|
  {
    forall x ensures x in a <==> x in b {
      assert x in a <==> x in multiset(a);
      assert x in b <==> x in multiset(b);
    }
    assert |a| == |multiset(a)| == |multiset(b)| == |b|;
  }

  // ---------- The choice ----------

  function FullName(solution: string): string {
    if solution == "weav" then "weave"
    else if solution == "flan" then "flannel"
    else if solution == "cali" then "calico"
    else solution
  }

  lemma FullNameIs(p: string)
    requires p in {"flan", "cali", "weav"}
    ensures FullName(p) in {"weave", "flannel", "calico"} && FullName(p)[..4] == p
  {
    assert "weave"[..4] == "weav" && "flannel"[..4] == "flan" && "calico"[..4] == "cali";
    assert "weav"[0] != "flan"[0] && "weav"[0] != "cali"[0] && "flan"[0] != "cali"[0];
  }

  /** The nested loops; an interface name shorter than four characters ends the process. */
  method TallyUsage(snaps: seq<Snapshot>) returns (m: Option<map<string, int>>)
    ensures m.Some? <==> AllSliceable(snaps)
    ensures m.Some? ==> m.value == Tallied(snaps).m
  {
    var usage: map<string, int> := map["flan" := 0, "cali" := 0, "weav" := 0];
    var rx: map<string, U64> := map[];
    var downlink := 0;
    for k := 0 to |snaps|
      invariant AllSliceable(snaps[..k]) && Tally(usage, rx, downlink) == Tallied(snaps[..k])
    {
      Prefix(snaps, k);
      ghost var before := Tallied(snaps[..k]);
      var s := snaps[k];
      for i := 0 to |s|
        invariant Sliceable(s[..i]) && Tally(usage, rx, downlink) == VisitAll(before, s[..i])
      {
        Prefix(s, i);
        var intf := s[i];
        if |intf.name| < 4 {
          return None;
        }
        if Solution(intf) in usage {
          if intf.name in rx {
            downlink := Delta(intf.rx, rx[intf.name]);
          }
          rx := rx[intf.name := intf.rx];
          usage := usage[Solution(intf) := downlink];
        }
      }
      assert s[..|s|] == s;
    }
    assert snaps[..|snaps|] == snaps;
    return Some(usage);
  }

  lemma TalliedKeys(snaps: seq<Snapshot>)
    requires AllSliceable(snaps)
    ensures Tallied(snaps).m.Keys == SOLUTIONS
  {
    hide VisitAll, Tallied;
    TalliedIsListing(snaps);
    CountersHeld(Listing(snaps));
  }

  ghost predicate LeastRecorded(snaps: seq<Snapshot>, p: string)
    requires AllSliceable(snaps)
  {
    var m := Tallied(snaps).m;
    && p in {"flan", "cali", "weav"} && m.Keys == {"flan", "cali", "weav"}
    && forall q :: q in m ==> m[p] <= m[q]
  }

  ghost predicate LeastUsed(snaps: seq<Snapshot>, p: string)
    requires |snaps| >= 2 && SameInterfaces(snaps)
  {
    && p in {"flan", "cali", "weav"}
    && forall q :: q in {"flan", "cali", "weav"} ==> Usage(snaps, p) <= Usage(snaps, q)
  }

  lemma FirstIsLeast(snaps: seq<Snapshot>, keys: seq<string>)
    requires AllSliceable(snaps)
    requires var m := Tallied(snaps).m;
             && (forall k :: k in keys <==> k in m)
             && forall i, j :: 0 <= i < j < |keys| ==> keys[i] in m && keys[j] in m && m[keys[i]] <= m[keys[j]]
    ensures keys != [] && LeastRecorded(snaps, keys[0])
  {
    hide Tallied;
    TalliedKeys(snaps);
    var m := Tallied(snaps).m;
    assert "flan" in SOLUTIONS && "flan" in keys;
    var p := keys[0];
    assert p in keys;
    forall q | q in m ensures m[p] <= m[q] {
      assert q in keys;
      var i :| 0 <= i < |keys| && keys[i] == q;
    }
  }

  /** Where recorded usage is real, the least recorded is the least real. */
  lemma LeastIsReal(snaps: seq<Snapshot>, p: string)
    requires AllSliceable(snaps) && |snaps| >= 2 && SameInterfaces(snaps) && LeastRecorded(snaps, p)
    ensures LeastUsed(snaps, p)
  {
    hide Usage, Tallied, SameInterfaces;
    forall q | q in {"flan", "cali", "weav"}
      ensures q in Tallied(snaps).m && Tallied(snaps).m[q] == Usage(snaps, q)
    {
      TalliedUsage(snaps, q);
    }
  }

  /**
    The answer is the full name of a solution with the smallest recorded usage;
    over snapshots of the same interfaces, with the smallest real one.  The
    solution is told by the answer's own first four characters.  A short
    interface name is fatal.
   */
  method ComputeNetworkUsage(snaps: seq<Snapshot>, order: set<string> -> seq<string>) returns (cns: Option<string>)
    requires forall s: set<string> :: Enumerates(order(s), s)
    ensures cns.Some? <==> AllSliceable(snaps)
    ensures cns.Some? ==> cns.value in {"weave", "flannel", "calico"} && LeastRecorded(snaps, cns.value[..4])
    ensures |snaps| >= 2 && SameInterfaces(snaps) ==> cns.Some? && LeastUsed(snaps, cns.value[..4])
  {
    var tally := TallyUsage(snaps);
    if tally.None? {
      return None;
    }
    var m := tally.value;
    TalliedKeys(snaps);
    var keys := SortedKeys(m, order(m.Keys));
    FirstIsLeast(snaps, keys);
    var names := keys;
    for i := 0 to |keys|
      invariant |names| == |keys|
      invariant forall k :: 0 <= k < i ==> names[k] == FullName(keys[k])
      invariant forall k :: i <= k < |keys| ==> names[k] == keys[k]
    {
      if names[i] == "weav" {
        names := names[i := "weave"];
      } else if names[i] == "flan" {
        names := names[i := "flannel"];
      } else if names[i] == "cali" {
        names := names[i := "calico"];
      }
    }
    FullNameIs(keys[0]);
    if |snaps| >= 2 && SameInterfaces(snaps) { LeastIsReal(snaps, keys[0]); }
    return Some(names[0]);
  }
}
