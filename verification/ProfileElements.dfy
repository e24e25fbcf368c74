/**
  Metadata profiles and submission profiles: the callbacks that run when an
  element is created, moved or destroyed, and the operations that fill a whole
  profile. Both kinds of profile use the same three callbacks.
 */
module ProfileElements {
  import opened Lexicographic
  import opened Numbers
  import opened Positions
  import opened Sets

  /** `t'` is `t` moved back by `|front|` places, with `front` in the places freed. */
  ghost predicate Prepended(t: Table, front: seq<Id>, t': Table) {
    && t'.Keys == t.Keys + (set e | e in front)
    && (forall a :: a in t ==> t'[a] == t[a] + |front|)
    && (forall i :: 0 <= i < |front| ==> front[i] in t' && t'[front[i]] == i)
  }

  /** In list terms: the new elements in their order, then the old list. */
  lemma PrependLists(t: Table, order: seq<Id>, front: seq<Id>, t': Table)
    requires Lists(t, order) && Prepended(t, front, t')
    ensures Lists(t', front + order)
  {
    var o' := front + order;
    forall i | 0 <= i < |o'| ensures o'[i] in t' && t'[o'[i]] == i {
      if i < |front| { assert o'[i] == front[i]; } else { assert o'[i] == order[i - |front|]; }
    }
    forall a | a in t' ensures 0 <= t'[a] < |o'| && o'[t'[a]] == a {
      if a in t {
        assert order[t[a]] == a;
      } else {
        var i :| 0 <= i < |front| && front[i] == a;
      }
    }
  }

  lemma PrependNext(was: Table, front: seq<Id>, i: nat, t: Table)
    requires NonNegative(was) && NoRepeats(front) && i < |front| && front[i] !in was && Prepended(was, front[..i], t)
    ensures Prepended(was, front[..i + 1], Step(t, Op.Create(front[i], i)))
  {
    assert front[..i + 1] == front[..i] + [front[i]];
    assert front[i] !in front[..i];
  }

  /** The creates that `dup` issues: the source's rows, read in position order. */
  ghost function Copies(t: Table, order: seq<Id>): (ops: seq<Op>)
    requires forall i :: 0 <= i < |order| ==> order[i] in t
  {
    seq(|order|, i requires 0 <= i < |order| => Op.Create(order[i], t[order[i]]))
  }

  lemma {:induction false} RunAppend(t: Table, ops: seq<Op>, op: Op)
    ensures Run(t, ops + [op]) == Step(Run(t, ops), op)
    decreases ops
  {
    if ops == [] {
      assert ops + [op] == [op] && Run(Step(t, op), []) == Step(t, op);
    } else {
      RunAppend(Step(t, ops[0]), ops[1..], op);
      assert (ops + [op])[1..] == ops[1..] + [op];
    }
  }

  /** `r` holds the first `n` rows of the listing, at the positions they have in `t`. */
  ghost predicate Restricted(t: Table, order: seq<Id>, n: nat, r: Table)
    requires n <= |order|
  {
    && (forall i :: 0 <= i < n ==> order[i] in r)
    && (forall a :: a in r ==> a in order[..n] && a in t && r[a] == t[a])
  }

  /** The rows of a prefix of the listing come before the next one. */
  lemma PrefixIsBefore(t: Table, order: seq<Id>, n: nat, before: Table)
    requires Distinct(t) && Sorted(t, order) && n < |order| && Restricted(t, order, n, before)
    ensures order[n] !in before && forall a :: a in before ==> before[a] < t[order[n]]
  {
    forall a | a in before ensures a != order[n] && before[a] < t[order[n]] {
      var i :| 0 <= i < n && order[..n][i] == a;
      assert order[i] == a;
    }
  }

  lemma PrefixRuns(t: Table, order: seq<Id>, n: nat)
    requires (forall i :: 0 <= i < |order| ==> order[i] in t) && 0 < n <= |order|
    ensures Run(map[], Copies(t, order)[..n]) ==
            Step(Run(map[], Copies(t, order)[..n - 1]), Op.Create(order[n - 1], t[order[n - 1]]))
  {
    var ops := Copies(t, order);
    assert ops[..n] == ops[..n - 1] + [ops[n - 1]];
    RunAppend(map[], ops[..n - 1], ops[n - 1]);
  }

  lemma CopyNext(t: Table, order: seq<Id>, n: nat)
    requires Distinct(t) && NonNegative(t) && Sorted(t, order) && 0 < n <= |order|
    requires Restricted(t, order, n - 1, Run(map[], Copies(t, order)[..n - 1]))
    ensures Restricted(t, order, n, Run(map[], Copies(t, order)[..n]))
  {
    var before := Run(map[], Copies(t, order)[..n - 1]);
    PrefixRuns(t, order, n);
    PrefixIsBefore(t, order, n - 1, before);
  }

  lemma {:induction false} CopyPrefix(t: Table, order: seq<Id>, n: nat)
    requires Distinct(t) && NonNegative(t) && Sorted(t, order) && n <= |order|
    ensures Restricted(t, order, n, Run(map[], Copies(t, order)[..n]))
  {
    var ops := Copies(t, order);
    if n == 0 {
      assert ops[..0] == [];
    } else {
      CopyPrefix(t, order, n - 1);
      CopyNext(t, order, n);
    }
  }

  /** `dup` reproduces the source's positions, gaps included, exactly when no two of them tie. */
  lemma DupIsExactIff(t: Table, order: seq<Id>)
    requires NonNegative(t) && Sorted(t, order)
    ensures Run(map[], Copies(t, order)) == t <==> Distinct(t)
  {
    RunKeepsPositionsDistinct(map[], Copies(t, order));
    if Distinct(t) {
      CopyPrefix(t, order, |order|);
      var r := Run(map[], Copies(t, order));
      assert Copies(t, order)[..|order|] == Copies(t, order) && order[..|order|] == order;
      forall a | a in t ensures a in r {
        var i :| 0 <= i < |order| && order[i] == a;
      }
      forall a ensures a in r <==> a in t {}
      forall a | a in t ensures r[a] == t[a] {}
      assert r == t;
    }
  }

  /** Two rows that tie are pulled apart by `dup`; no run of the callbacks leads to them. */
  lemma TiedRowsNotCopied(ops: seq<Op>)
    ensures var t: Table := map[1 := 0, 2 := 0];
            && Sorted(t, [1, 2])
            && Run(map[], Copies(t, [1, 2])) == map[1 := 1, 2 := 0]
            && Run(map[], ops) != t
  {
    var t: Table := map[1 := 0, 2 := 0];
    assert Sorted(t, [1, 2]) && !Distinct(t) by { assert t[1] == t[2]; }
    var copies := Copies(t, [1, 2]);
    assert copies == [Op.Create(1, 0)] + [Op.Create(2, 0)];
    assert Run(map[], [Op.Create(1, 0)]) == map[1 := 0] by {
      assert [Op.Create(1, 0)][1..] == [] && Step(map[], Op.Create(1, 0)) == map[1 := 0];
    }
    RunAppend(map[], [Op.Create(1, 0)], Op.Create(2, 0));
    RunKeepsPositionsDistinct(map[], ops);
  }

  class Profile {
    var position: Table

    constructor ()
      ensures position == map[]
    {
      position := map[];
    }

    /** Saves a new element; a repeated element or a negative position is invalid. */
    method Create(e: Id, p: int) returns (ok: bool)
      modifies this
      ensures ok <==> e !in old(position) && 0 <= p
      ensures !ok ==> position == old(position)
      ensures ok ==> position.Keys == old(position).Keys + {e} && position[e] == p
      ensures ok ==> forall a :: a in old(position) ==>
                position[a] == old(position)[a] + if old(position)[a] >= p then 1 else 0
      ensures position == Step(old(position), Op.Create(e, p))
    {
      if e in position || p < 0 { return false; }
      ghost var was := position;
      var todo := set a | a in position && position[a] >= p;
      while todo != {}
        invariant todo <= position.Keys == was.Keys
        invariant forall a :: a in todo ==> position[a] == was[a] && was[a] >= p
        invariant forall a :: a in was && a !in todo ==> position[a] == ShiftedUp(was, p)[a]
      {
        ghost var any := Pick(todo);
        var a :| a in todo;
        position := position[a := position[a] + 1];
        todo := todo - {a};
      }
      forall a | a in position ensures position[a] == ShiftedUp(was, p)[a] {}
      assert position == ShiftedUp(was, p);
      position := position[e := p];
      ok := true;
    }

    /** Saves an element under a new position. */
    method UpdatePosition(e: Id, p: int) returns (ok: bool)
      modifies this
      ensures ok <==> e in old(position) && 0 <= p
      ensures !ok ==> position == old(position)
      ensures ok ==> position.Keys == old(position).Keys && position[e] == p
      ensures ok ==> forall a :: a in old(position) && a != e ==>
                var was := old(position)[e];
                position[a] == old(position)[a] + if was < p && was <= old(position)[a] <= p then -1
                                                  else if p < was && p <= old(position)[a] <= was then 1
                                                  else 0
      ensures position == Step(old(position), Op.Update(e, p))
    {
      if e !in position || p < 0 { return false; }
      ghost var was := position;
      var w := position[e];
      if p != w {
        var min, max, increased := Min(w, p), Max(w, p), w < p;
        var todo := set a | a in position && a != e && min <= position[a] && position[a] <= max;
        while todo != {}
          invariant todo <= position.Keys == was.Keys
          invariant forall a :: a in todo ==> a != e && position[a] == was[a] && min <= was[a] <= max
          invariant forall a :: a in was && a !in todo ==> position[a] == RangeShifted(was, e, w, p)[a]
        {
          var a :| a in todo;
          if increased {
            position := position[a := position[a] - 1];
          } else {
            position := position[a := position[a] + 1];
          }
          todo := todo - {a};
        }
        assert position == RangeShifted(was, e, w, p);
        position := position[e := p];
      }
      ok := true;
    }

    /** Deletes an element and renumbers the rest in position order. */
    method Destroy(e: Id) returns (ok: bool)
      modifies this
      ensures ok <==> e in old(position)
      ensures !ok ==> position == old(position)
      ensures ok ==> exists order :: Sorted(old(position) - {e}, order) && Lists(position, order)
      ensures Distinct(old(position)) ==> position == Step(old(position), Op.Destroy(e))
    {
      if e !in position { return false; }
      position := position - {e};
      ghost var rest := position;
      var order := OrderByPosition();
      Renumber(order);
      if Distinct(old(position)) { CompactedIsRank(rest, order, position); }
      ok := true;
    }

    method Renumber(order: seq<Id>)
      requires Sorted(position, order)
      modifies this
      ensures position.Keys == old(position).Keys && Lists(position, order)
    {
      for i := 0 to |order|
        invariant position.Keys == old(position).Keys
        invariant forall k :: 0 <= k < i ==> position[order[k]] == k
        invariant forall k :: i <= k < |order| ==> position[order[k]] == old(position)[order[k]]
      {
        if position[order[i]] != i {
          position := position[order[i] := i];
        }
      }
      forall a | a in position ensures 0 <= position[a] < |order| && order[position[a]] == a {
        var k :| 0 <= k < |order| && order[k] == a;
      }
    }

    method OrderByPosition() returns (order: seq<Id>)
      ensures Sorted(position, order)
    {
      order := [];
      var todo := position.Keys;
      while todo != {}
        invariant todo <= position.Keys
        invariant forall i :: 0 <= i < |order| ==> order[i] in position && order[i] !in todo
        invariant forall a :: a in position && a !in todo ==> a in order
        invariant NoRepeats(order)
        invariant forall i, j :: 0 <= i < j < |order| ==> position[order[i]] <= position[order[j]]
        invariant forall i, a :: 0 <= i < |order| && a in todo ==> position[order[i]] <= position[a]
      {
        assert exists m :: m in todo && forall a :: a in todo ==> position[m] <= position[a] by {
          var m := First(position, todo);
        }
        var m :| m in todo && forall a :: a in todo ==> position[m] <= position[a];
        order := order + [m];
        todo := todo - {m};
      }
    }

    /** Adds the required elements that are missing, in label order, before all others. */
    method AddRequiredElements(required: set<Id>, labels: map<Id, Word>)
      requires required <= labels.Keys
      modifies this
      ensures NonNegative(old(position)) ==>
                exists front :: IsLabelOrder(front, required - old(position).Keys, labels)
                                && Prepended(old(position), front, position)
    {
      var front := SortByLabel(required - position.Keys, labels);
      ghost var was := position;
      for i := 0 to |front|
        invariant NonNegative(was) ==> Prepended(was, front[..i], position)
      {
        ghost var t := position;
        var _ := Create(front[i], i);
        if NonNegative(was) { PrependNext(was, front, i, t); }
      }
      assert front[..|front|] == front;
    }

    /** Clones the profile, one element at a time in position order. */
    method Dup() returns (clone: Profile)
      ensures fresh(clone) && unchanged(this)
      ensures NonNegative(position) && Distinct(position) ==> clone.position == position
    {
      clone := new Profile();
      var order := OrderByPosition();
      ghost var ops := Copies(position, order);
      for i := 0 to |order|
        invariant fresh(clone) && unchanged(this)
        invariant clone.position == Run(map[], ops[..i])
      {
        assert ops[..i + 1] == ops[..i] + [ops[i]];
        RunAppend(map[], ops[..i], ops[i]);
        var _ := clone.Create(order[i], position[order[i]]);
      }
      assert ops[..|order|] == ops;
      if NonNegative(position) { DupIsExactIff(position, order); }
    }
  }

  /** `front` lists `ids` once each, no label after a greater one. */
  ghost predicate IsLabelOrder(front: seq<Id>, ids: set<Id>, labels: map<Id, Word>)
    requires ids <= labels.Keys
  {
    && NoRepeats(front)
    && (forall e :: e in front <==> e in ids)
    && (forall i, j :: 0 <= i < j < |front| ==> !Less(labels[front[j]], labels[front[i]]))
  }

  lemma FirstLabelExists(ids: set<Id>, labels: map<Id, Word>) returns (m: Id)
    requires ids != {} && ids <= labels.Keys
    ensures m in ids && forall e :: e in ids ==> !Less(labels[e], labels[m])
  {
    m := Pick(ids);
    Irreflexive(labels[m]);
    if ids != {m} {
      var n := FirstLabelExists(ids - {m}, labels);
      if Less(labels[n], labels[m]) {
        forall e | e in ids ensures !Less(labels[e], labels[n]) {
          if e == m {
            if Less(labels[m], labels[n]) { Transitive(labels[m], labels[n], labels[m]); }
          }
        }
        m := n;
      } else {
        forall e | e in ids - {m} ensures !Less(labels[e], labels[m]) {
          Total(labels[n], labels[m]);
          if Less(labels[e], labels[m]) && Less(labels[m], labels[n]) { Transitive(labels[e], labels[m], labels[n]); }
        }
      }
    }
  }

  lemma ListedOnce(front: seq<Id>, ids: set<Id>)
    requires NoRepeats(front) && forall e :: e in front <==> e in ids
    ensures |front| == |ids|
  {
    SizeOfRange(front);
    assert (set x | x in front) == ids;
  }

  method SortByLabel(ids: set<Id>, labels: map<Id, Word>) returns (front: seq<Id>)
    requires ids <= labels.Keys
    ensures IsLabelOrder(front, ids, labels)
    ensures |front| == |ids| && forall e :: e in front <==> e in ids
    ensures forall i, j :: 0 <= i < j < |front| ==>
              front[i] in labels && front[j] in labels && !Less(labels[front[j]], labels[front[i]])
  {
    front := [];
    var todo := ids;
    while todo != {}
      invariant todo <= ids
      invariant IsLabelOrder(front, ids - todo, labels)
      invariant forall i, e :: 0 <= i < |front| && e in todo ==> front[i] in ids && !Less(labels[e], labels[front[i]])
    {
      ghost var first := FirstLabelExists(todo, labels);
      var m :| m in todo && forall e :: e in todo ==> !Less(labels[e], labels[m]);
      front := front + [m];
      todo := todo - {m};
    }
    ListedOnce(front, ids);
  }
}
