/** Totals over a subtree, computed from a flat list of descendants. */
module RollUps {
  import opened Forest
  import opened Sets

  ghost function SumOver(s: set<int>, share: int -> nat): nat {
    if s == {} then 0 else
    var x := Pick(s);
    share(x) + SumOver(s - {x}, share)
  }

  ghost function SumSeq(s: seq<int>, share: int -> nat): nat {
    if s == [] then 0 else share(s[0]) + SumSeq(s[1..], share)
  }

  lemma {:induction false} SumRemove(s: set<int>, x: int, share: int -> nat)
    requires x in s
    ensures SumOver(s, share) == share(x) + SumOver(s - {x}, share)
  {
    var y := Pick(s);
    if x != y {
      SumRemove(s - {y}, x, share);
      SumRemove(s - {x}, y, share);
      assert s - {y} - {x} == s - {x} - {y};
    }
  }

  lemma {:induction false} SumSeqIsSumOver(s: seq<int>, share: int -> nat)
    requires NoRepeats(s)
    ensures SumSeq(s, share) == SumOver((set x | x in s), share)
  {
    if s != [] {
      SumSeqIsSumOver(s[1..], share);
      SumRemove((set x | x in s), s[0], share);
      assert (set x | x in s) - {s[0]} == set x | x in s[1..];
    }
  }

  lemma {:induction false} SumSeqAppend(s: seq<int>, t: seq<int>, share: int -> nat)
    ensures SumSeq(s + t, share) == SumSeq(s, share) + SumSeq(t, share)
  {
    if s == [] {
      assert s + t == t;
    } else {
      SumSeqAppend(s[1..], t, share);
      assert (s + t)[1..] == s[1..] + t;
    }
  }

  /** A unit's own share plus that of every descendant, each counted once. */
  ghost function RollUp(f: Parents, u: int, share: int -> nat): nat {
    share(u) + SumOver(Descendants(f, u), share)
  }

  lemma RollUpIsPreorderSum(f: Parents, u: int, share: int -> nat)
    requires IsForest(f) && u in f
    ensures RollUp(f, u, share) == SumSeq(Preorder(f, u), share)
  {
    PreorderIsSubtree(f, u);
    var below := Preorder(f, u)[1..];
    SumSeqIsSumOver(below, share);
    assert (set x | x in below) == Descendants(f, u);
  }

  ghost function ChildRollUps(f: Parents, cs: seq<int>, share: int -> nat): nat {
    if cs == [] then 0 else RollUp(f, cs[0], share) + ChildRollUps(f, cs[1..], share)
  }

  /** The flat total is the unit's share plus the totals of its children. */
  lemma RollUpIsAdditive(f: Parents, u: int, share: int -> nat)
    requires IsForest(f) && u in f
    ensures RollUp(f, u, share) == share(u) + ChildRollUps(f, ChildIds(f, u), share)
  {
    RollUpIsPreorderSum(f, u, share);
    WalkSum(f, u, ChildIds(f, u), share);
    assert Preorder(f, u)[1..] == PreorderOf(f, u, ChildIds(f, u));
  }

  lemma {:induction false} WalkSum(f: Parents, u: int, cs: seq<int>, share: int -> nat)
    requires IsForest(f) && u in f && AreChildren(f, u, cs)
    ensures SumSeq(PreorderOf(f, u, cs), share) == ChildRollUps(f, cs, share)
  {
    if cs != [] {
      RollUpIsPreorderSum(f, cs[0], share);
      WalkSum(f, u, cs[1..], share);
      SumSeqAppend(Preorder(f, cs[0]), PreorderOf(f, u, cs[1..]), share);
    }
  }
}
