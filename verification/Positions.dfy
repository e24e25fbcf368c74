/**
  The `position` column of a profile's elements, and the three callbacks that
  keep it in order. A profile holds at most one row per registered element, so
  the table maps the element's ID to its position.
 */
module Positions {
  import opened Numbers
  import opened Sets

  type Id = int
  type Table = map<Id, int>

  ghost predicate Distinct(t: Table) {
    forall a, b :: a in t && b in t && a != b ==> t[a] != t[b]
  }

  ghost predicate NonNegative(t: Table) {
    forall a :: a in t ==> 0 <= t[a]
  }

  /** The rows, read in position order, are `order`, at positions 0, 1, 2, ... */
  ghost predicate Lists(t: Table, order: seq<Id>) {
    && (forall i :: 0 <= i < |order| ==> order[i] in t && t[order[i]] == i)
    && (forall a :: a in t ==> 0 <= t[a] < |order| && order[t[a]] == a)
  }

  /** `order` is a possible answer to `ORDER BY position`: rows that tie may come in either order. */
  ghost predicate Sorted(t: Table, order: seq<Id>) {
    && NoRepeats(order)
    && (forall i :: 0 <= i < |order| ==> order[i] in t)
    && (forall a :: a in t ==> a in order)
    && (forall i, j :: 0 <= i < j < |order| ==> t[order[i]] <= t[order[j]])
  }

  // ----- what the callbacks compute -----

  function ShiftedUp(t: Table, p: int): Table {
    map a | a in t :: if t[a] >= p then t[a] + 1 else t[a]
  }

  function Created(t: Table, e: Id, p: int): Table {
    ShiftedUp(t, p)[e := p]
  }

  function RangeShifted(t: Table, e: Id, was: int, p: int): Table {
    map a | a in t ::
      if a != e && Min(was, p) <= t[a] <= Max(was, p)
      then (if was < p then t[a] - 1 else t[a] + 1) else t[a]
  }

  function Moved(t: Table, e: Id, p: int): Table
    requires e in t
  {
    if p == t[e] then t else RangeShifted(t, e, t[e], p)[e := p]
  }

  ghost function Rank(t: Table, a: Id): nat
    requires a in t
  {
    |set b | b in t && t[b] < t[a]|
  }

  ghost function Destroyed(t: Table, e: Id): Table {
    var rest := t - {e};
    map a | a in rest :: Rank(rest, a)
  }

  // ----- the list operations they stand for -----

  function InsertAt(s: seq<Id>, p: nat, e: Id): seq<Id>
    requires p <= |s|
  {
    s[..p] + [e] + s[p..]
  }

  function RemoveAt(s: seq<Id>, p: nat): seq<Id>
    requires p < |s|
  {
    s[..p] + s[p + 1..]
  }

  lemma CreateInserts(t: Table, order: seq<Id>, e: Id, p: nat)
    requires Lists(t, order) && e !in t && p <= |order|
    ensures Lists(Created(t, e, p), InsertAt(order, p, e))
  {}

  lemma UpdateMoves(t: Table, order: seq<Id>, e: Id, p: nat)
    requires Lists(t, order) && e in t && p < |order|
    ensures Lists(Moved(t, e, p), InsertAt(RemoveAt(order, t[e]), p, e))
  {
    var w := t[e];
    var rest := RemoveAt(order, w);
    var t', o' := Moved(t, e, p), InsertAt(rest, p, e);
    forall i | 0 <= i < |o'| ensures o'[i] in t' && t'[o'[i]] == i {
      if i != p {
        var k := if i < p then i else i - 1;
        var j := if k < w then k else k + 1;
        assert o'[i] == rest[k] == order[j];
        assert t[order[j]] == j;
      }
    }
    forall a | a in t' ensures 0 <= t'[a] < |o'| && o'[t'[a]] == a {
      if a != e {
        var j := t[a];
        assert order[j] == a && j != w;
        var k := if j < w then j else j - 1;
        assert rest[k] == a;
      }
    }
  }

  /** Whatever the target, an update leaves positions distinct and every other pair in its old order. */
  lemma UpdateKeepsOrder(t: Table, e: Id, p: int)
    requires Distinct(t) && NonNegative(t) && e in t && 0 <= p
    ensures Distinct(Moved(t, e, p)) && NonNegative(Moved(t, e, p))
    ensures Moved(t, e, p).Keys == t.Keys && Moved(t, e, p)[e] == p
    ensures forall a, b :: a in t && b in t && a != e && b != e ==>
              (t[a] < t[b] <==> Moved(t, e, p)[a] < Moved(t, e, p)[b])
  {
    var t' := Moved(t, e, p);
    forall a, b | a in t && b in t && a != b && a != e && b != e
      ensures t'[a] != t'[b] && (t[a] < t[b] <==> t'[a] < t'[b])
    {
      assert t[a] != t[b] && t[a] != t[e] && t[b] != t[e];
    }
    forall a | a in t && a != e ensures t'[a] != p && 0 <= t'[a] {
      assert t[a] != t[e];
    }
  }

  lemma CreateKeepsOrder(t: Table, e: Id, p: int)
    requires Distinct(t) && NonNegative(t) && e !in t && 0 <= p
    ensures Distinct(Created(t, e, p)) && NonNegative(Created(t, e, p))
    ensures Created(t, e, p).Keys == t.Keys + {e} && Created(t, e, p)[e] == p
    ensures forall a, b :: a in t && b in t ==>
              (t[a] < t[b] <==> Created(t, e, p)[a] < Created(t, e, p)[b])
  {}

  // ----- reading rows in position order -----

  lemma RankIsIndex(t: Table, order: seq<Id>, i: nat)
    requires Distinct(t) && Sorted(t, order) && i < |order|
    ensures Rank(t, order[i]) == i
  {
    forall b | b in t ensures b in order[..i] <==> t[b] < t[order[i]] {
      var j :| 0 <= j < |order| && order[j] == b;
      if j < i { assert order[..i][j] == b && b != order[i]; }
    }
    assert (set b | b in t && t[b] < t[order[i]]) == set x | x in order[..i];
    SizeOfRange(order[..i]);
  }

  /** Compacting a sorted listing gives each row its rank. */
  lemma CompactedIsRank(t: Table, order: seq<Id>, t': Table)
    requires Distinct(t) && Sorted(t, order) && Lists(t', order)
    ensures t'.Keys == t.Keys
    ensures forall a :: a in t ==> t'[a] == Rank(t, a)
  {
    forall a ensures a in t' <==> a in t {
      if a in t { assert a in order; }
      if a in t' { assert order[t'[a]] == a; }
    }
    forall a | a in t ensures t'[a] == Rank(t, a) {
      var i :| 0 <= i < |order| && order[i] == a;
      RankIsIndex(t, order, i);
    }
  }

  ghost function Listing(t: Table): (order: seq<Id>)
    ensures Sorted(t, order)
  {
    SortedKeys(t, t.Keys)
  }

  ghost function SortedKeys(t: Table, ks: set<Id>): (order: seq<Id>)
    requires ks <= t.Keys
    ensures Sorted(map a | a in ks :: t[a], order)
  {
    if ks == {} then [] else
    var e := First(t, ks);
    [e] + SortedKeys(t, ks - {e})
  }

  ghost function First(t: Table, ks: set<Id>): (e: Id)
    requires ks != {} && ks <= t.Keys
    ensures e in ks && forall a :: a in ks ==> t[e] <= t[a]
  {
    var x := Pick(ks);
    if ks - {x} == {} then assert ks == {x}; x else
    var y := First(t, ks - {x});
    if t[x] <= t[y] then x else y
  }

  lemma RanksAreListed(t: Table, order: seq<Id>, t': Table)
    requires Distinct(t) && Sorted(t, order) && t'.Keys == t.Keys && forall a :: a in t ==> t'[a] == Rank(t, a)
    ensures Lists(t', order)
  {
    forall i | 0 <= i < |order| ensures order[i] in t' && t'[order[i]] == i {
      RankIsIndex(t, order, i);
    }
    forall a | a in t' ensures 0 <= t'[a] < |order| && order[t'[a]] == a {
      var i :| 0 <= i < |order| && order[i] == a;
      assert t'[a] == i;
    }
  }

  lemma DestroyLists(t: Table, e: Id)
    requires Distinct(t)
    ensures Lists(Destroyed(t, e), Listing(t - {e}))
  {
    RanksAreListed(t - {e}, Listing(t - {e}), Destroyed(t, e));
  }

  /** Numbering the other rows in their order keeps it. */
  lemma ListedInOrder(t: Table, e: Id, order: seq<Id>, t': Table)
    requires Distinct(t) && Sorted(t - {e}, order) && Lists(t', order)
    ensures Distinct(t') && NonNegative(t')
    ensures forall a :: a in t && a != e ==> a in t'
    ensures forall a, b :: a in t && b in t && a != e && b != e ==> (t[a] < t[b] <==> t'[a] < t'[b])
  {
    forall a | a in t && a != e ensures a in t' {
      assert a in t - {e};
      var i :| 0 <= i < |order| && order[i] == a;
    }
    forall a, b | a in t && b in t && a != e && b != e && t'[a] < t'[b] ensures t[a] < t[b] {
      assert order[t'[a]] == a && order[t'[b]] == b && (t - {e})[a] == t[a] && (t - {e})[b] == t[b];
    }
  }

  lemma DestroyCompacts(t: Table, e: Id)
    requires Distinct(t)
    ensures Lists(Destroyed(t, e), Listing(t - {e}))
    ensures Distinct(Destroyed(t, e)) && NonNegative(Destroyed(t, e))
    ensures forall a, b :: a in t && b in t && a != e && b != e ==>
              (t[a] < t[b] <==> Destroyed(t, e)[a] < Destroyed(t, e)[b])
  {
    DestroyLists(t, e);
    ListedInOrder(t, e, Listing(t - {e}), Destroyed(t, e));
  }

  lemma SortedUnique(t: Table, o1: seq<Id>, o2: seq<Id>)
    requires Distinct(t) && Sorted(t, o1) && Sorted(t, o2)
    ensures o1 == o2
  {
    SizeOfRange(o1);
    SizeOfRange(o2);
    forall a ensures a in o1 <==> a in o2 {}
    assert (set x | x in o1) == set x | x in o2;
    forall i | 0 <= i < |o1| ensures o1[i] == o2[i] {
      RankIsIndex(t, o1, i);
      RankIsIndex(t, o2, i);
      if t[o1[i]] < t[o2[i]] { RanksDiffer(t, o1[i], o2[i]); }
      if t[o2[i]] < t[o1[i]] { RanksDiffer(t, o2[i], o1[i]); }
    }
  }

  lemma RanksDiffer(t: Table, a: Id, b: Id)
    requires a in t && b in t && t[a] < t[b]
    ensures Rank(t, a) < Rank(t, b)
  {
    var s, u := set x | x in t && t[x] < t[a], set x | x in t && t[x] < t[b];
    assert s + {a} <= u && a !in s;
    SubsetSize(s + {a}, u);
  }

  lemma DestroyRemoves(t: Table, order: seq<Id>, e: Id)
    requires Lists(t, order) && e in t
    ensures Lists(Destroyed(t, e), RemoveAt(order, t[e]))
  {
    var rest, o' := t - {e}, RemoveAt(order, t[e]);
    forall i | 0 <= i < |o'| ensures o'[i] == order[if i < t[e] then i else i + 1] {}
    forall a | a in rest ensures a in o' {
      var j := t[a];
      assert order[j] == a && j != t[e];
      assert o'[if j < t[e] then j else j - 1] == a;
    }
    assert Sorted(rest, o');
    DestroyCompacts(t, e);
    SortedUnique(rest, o', Listing(rest));
  }

  // ----- runs -----

  datatype Op = Create(e: Id, p: int) | Update(e: Id, p: int) | Destroy(e: Id)

  /** An operation that a validation rejects changes nothing. */
  ghost function Step(t: Table, op: Op): Table {
    match op
    case Create(e, p) => if e in t || p < 0 then t else Created(t, e, p)
    case Update(e, p) => if e !in t || p < 0 then t else Moved(t, e, p)
    case Destroy(e) => if e !in t then t else Destroyed(t, e)
  }

  ghost function Run(t: Table, ops: seq<Op>): Table
    decreases ops
  {
    if ops == [] then t else Run(Step(t, ops[0]), ops[1..])
  }

  /** Every run, with targets as large as one likes, keeps positions distinct and non-negative. */
  lemma {:induction false} RunKeepsPositionsDistinct(t: Table, ops: seq<Op>)
    requires Distinct(t) && NonNegative(t)
    ensures Distinct(Run(t, ops)) && NonNegative(Run(t, ops))
    decreases ops
  {
    if ops != [] {
      match ops[0] {
        case Create(e, p) => if e !in t && 0 <= p { CreateKeepsOrder(t, e, p); }
        case Update(e, p) => if e in t && 0 <= p { UpdateKeepsOrder(t, e, p); }
        case Destroy(e) => DestroyCompacts(t, e);
      }
      RunKeepsPositionsDistinct(Step(t, ops[0]), ops[1..]);
    }
  }

  /** Any effective destroy at the end of any run leaves positions 0..n-1, in the order they had. */
  lemma DestroyRestoresContiguity(ops: seq<Op>, e: Id)
    requires e in Run(map[], ops)
    ensures var t := Run(map[], ops);
            Lists(Step(t, Destroy(e)), Listing(t - {e}))
  {
    RunKeepsPositionsDistinct(map[], ops);
    DestroyCompacts(Run(map[], ops), e);
  }

  /** The same operation on a list, when its target lies inside the list. */
  ghost predicate InRange(order: seq<Id>, op: Op) {
    match op
    case Create(e, p) => e !in order && 0 <= p <= |order|
    case Update(e, p) => e in order && 0 <= p < |order|
    case Destroy(e) => e in order
  }

  ghost function IndexIn(order: seq<Id>, e: Id): (i: nat)
    requires e in order
    ensures i < |order| && order[i] == e
  {
    var i :| 0 <= i < |order| && order[i] == e; i
  }

  ghost function ListStep(order: seq<Id>, op: Op): seq<Id>
    requires InRange(order, op)
  {
    match op
    case Create(e, p) => InsertAt(order, p, e)
    case Update(e, p) => InsertAt(RemoveAt(order, IndexIn(order, e)), p, e)
    case Destroy(e) => RemoveAt(order, IndexIn(order, e))
  }

  ghost predicate AllInRange(order: seq<Id>, ops: seq<Op>)
    decreases ops
  {
    ops == [] || (InRange(order, ops[0]) && AllInRange(ListStep(order, ops[0]), ops[1..]))
  }

  ghost function ListRun(order: seq<Id>, ops: seq<Op>): seq<Id>
    requires AllInRange(order, ops)
    decreases ops
  {
    if ops == [] then order else ListRun(ListStep(order, ops[0]), ops[1..])
  }

  /** Every in-range run on the position column is the same run on a list. */
  lemma {:induction false} RunRefinesList(t: Table, order: seq<Id>, ops: seq<Op>)
    requires Lists(t, order) && AllInRange(order, ops)
    ensures Lists(Run(t, ops), ListRun(order, ops))
    decreases ops
  {
    if ops != [] {
      match ops[0] {
        case Create(e, p) => CreateInserts(t, order, e, p);
        case Update(e, p) => UpdateMoves(t, order, e, p);
        case Destroy(e) => DestroyRemoves(t, order, e);
      }
      RunRefinesList(Step(t, ops[0]), ListStep(order, ops[0]), ops[1..]);
    }
  }
}
