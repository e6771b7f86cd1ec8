/**
  Exactly when removing a network chain works.  The wrapper deletes at most
  two base rules, so a chain with more references, which a network whose
  subnet changed can have, stays behind empty, without its REJECT.
 */
module Removal {
  import opened Sequences
  import opened Text
  import opened Rules
  import opened Tables
  import opened Invariant

  function Count(rules: seq<Rule>, target: string): nat {
    if rules == [] then 0 else (if rules[0].target == target then 1 else 0) + Count(rules[1..], target)
  }

  lemma {:induction false} CountZero(rules: seq<Rule>, target: string)
    ensures Count(rules, target) == 0 <==> forall i :: 0 <= i < |rules| ==> rules[i].target != target
  {
    if rules != [] {
      CountZero(rules[1..], target);
      assert forall i :: 0 <= i < |rules| ==> rules[i] == if i == 0 then rules[0] else rules[1..][i - 1];
      if Count(rules, target) == 0 {
        forall i | 0 <= i < |rules| ensures rules[i].target != target {
          if i > 0 { assert rules[i] == rules[1..][i - 1]; }
        }
      } else if rules[0].target != target {
        var i :| 0 <= i < |rules[1..]| && rules[1..][i].target == target;
        assert rules[i + 1].target == target;
      }
    }
  }

  lemma {:induction false} DropFirstCount(rules: seq<Rule>, c: string, n: nat)
    requires IsNet(c) && forall r :: r in rules ==> Printable(BASE, r)
    ensures Count(DropFirst(BASE, rules, c, n), c) == if Count(rules, c) <= n then 0 else Count(rules, c) - n
  {
    hide Kind, Mentions;
    KindFacts();
    if rules != [] && n > 0 {
      MentionsName(BASE, rules[0], c);
      if rules[0].target == c {
        DropFirstCount(rules[1..], c, n - 1);
      } else {
        DropFirstCount(rules[1..], c, n);
        assert DropFirst(BASE, rules, c, n)[1..] == DropFirst(BASE, rules[1..], c, n);
      }
    }
  }

  /** Removal succeeds iff at most two base rules lead to the chain; when it fails the table has lost its shape. */
  lemma NetworkRemovalSucceedsIff(t: Table, c: string)
    requires Shape(t) && IsNet(c) && c in t
    ensures RemoveNetwork(t, c).1 == Done <==> Count(t[BASE], c) <= 2
    ensures Count(t[BASE], c) > 2 ==> var t' := RemoveNetwork(t, c).0; c in t' && t'[c] == [] && !Shape(t')
  {
    hide Kind, Contains, Mentions;
    KindFacts();
    BaseHeaderHoldsNoName(c);
    assert ChainOk(t, BASE);
    var base := DropTwo(BASE, t[BASE], c);
    DropFirstCount(t[BASE], c, 2);
    CountZero(base, c);
    var t1: Table := ClearChain(t[BASE := base], c);
    assert t1[BASE] == base;
    if Count(t[BASE], c) <= 2 {
      forall d: string | d in t1 ensures forall r :: r in t1[d] ==> r.target != c {
        NobodyElseLeadsTo(t, d, c);
      }
      assert !Referenced(t1, c);
    } else {
      var i :| 0 <= i < |base| && base[i].target == c;
      assert t1[BASE][i].target == c;
      assert Referenced(t1, c);
      assert !ChainOk(t1, c);
    }
  }
}
