/**
  Bundle positions of one item's bitstreams. Each bundle is its own list, a
  position may be absent, and an update renumbers every other row of the bundle
  instead of shifting a range.
 */
module BundlePositions {
  import opened Positions
  import opened Sets
  import opened Wrappers

  datatype Row = Row(bundle: int, position: Option<int>)

  type Rows = map<Id, Row>

  /** The numbered part of one bundle, as a plain position table. */
  function Section(rows: Rows, bundle: int): Table {
    map a | a in rows && rows[a].bundle == bundle && rows[a].position.Some? :: rows[a].position.value
  }

  ghost predicate FullyNumbered(rows: Rows, bundle: int) {
    forall a :: a in rows && rows[a].bundle == bundle ==> rows[a].position.Some?
  }

  ghost predicate SameOutside(rows: Rows, rows': Rows, bundle: int) {
    && rows'.Keys == rows.Keys
    && (forall a :: a in rows ==> rows'[a].bundle == rows[a].bundle)
    && (forall a :: a in rows && rows[a].bundle != bundle ==> rows'[a] == rows[a])
  }

  /** Absent positions come last, as NULLs do. */
  predicate NotAfter(p: Option<int>, q: Option<int>) {
    q.None? || (p.Some? && p.value <= q.value)
  }

  /** `order` lists `ids` once each, by position. */
  ghost predicate SortedRows(rows: Rows, ids: set<Id>, order: seq<Id>) {
    && NoRepeats(order)
    && (forall a :: a in order <==> a in ids)
    && (forall i :: 0 <= i < |order| ==> order[i] in rows)
    && (forall i, j :: 0 <= i < j < |order| ==> NotAfter(rows[order[i]].position, rows[order[j]].position))
  }

  /** The `k`-th place once the place of the moved row is set aside. */
  function Slot(k: nat, p: Option<int>): nat {
    if p.Some? && 0 <= p.value <= k then k + 1 else k
  }

  ghost predicate NumberedAround(rows: Rows, order: seq<Id>, p: Option<int>) {
    forall k :: 0 <= k < |order| ==> order[k] in rows && rows[order[k]].position == Some(Slot(k, p))
  }

  function OthersIn(rows: Rows, bundle: int, e: Id): set<Id> {
    set a | a in rows && a != e && rows[a].bundle == bundle
  }

  /** From contiguous positions, renumbering everyone else and shifting a range are the same move. */
  lemma RenumberIsRangeShift(rows: Rows, bundle: int, list: seq<Id>, e: Id, p: nat, order: seq<Id>, rows': Rows)
    requires FullyNumbered(rows, bundle) && Lists(Section(rows, bundle), list)
    requires e in rows && rows[e].bundle == bundle
    requires SortedRows(rows, OthersIn(rows, bundle, e), order)
    requires rows'.Keys == rows.Keys && NumberedAround(rows', order, Some(p))
    requires forall a :: a in rows ==> rows'[a].bundle == rows[a].bundle
    requires rows'[e].position == Some(p)
    ensures Section(rows', bundle) == Moved(Section(rows, bundle), e, p)
  {
    var t := Section(rows, bundle);
    var w := t[e];
    var rest := t - {e};
    assert forall a :: a in OthersIn(rows, bundle, e) ==> a in rest;
    forall i | 0 <= i < |order| ensures order[i] in rest { assert order[i] in order; }
    assert Sorted(rest, order);
    RestIsList(t, list, e, order);
    var t' := Section(rows', bundle);
    forall a ensures a in t' <==> a in t {
      if a in rows && rows[a].bundle == bundle && a != e {
        assert a in order;
        var k :| 0 <= k < |order| && order[k] == a;
      }
    }
    forall a | a in t ensures t'[a] == Moved(t, e, p)[a] {
      if a != e {
        assert a in order;
        var k :| 0 <= k < |order| && order[k] == a;
        assert t[a] == if k < w then k else k + 1;
      }
    }
    assert t' == Moved(t, e, p);
  }

  /** Renumbering from 0 after a deletion is the compaction that profiles do. */
  lemma RenumberIsCompaction(rows: Rows, bundle: int, e: Id, order: seq<Id>, rows': Rows)
    requires FullyNumbered(rows, bundle) && Distinct(Section(rows, bundle))
    requires e in rows && rows[e].bundle == bundle
    requires SortedRows(rows, OthersIn(rows, bundle, e), order)
    requires rows'.Keys == rows.Keys - {e} && NumberedAround(rows', order, None)
    requires forall a :: a in rows' ==> rows'[a].bundle == rows[a].bundle
    ensures Section(rows', bundle) == Destroyed(Section(rows, bundle), e)
  {
    var rest, t' := Section(rows, bundle) - {e}, Section(rows', bundle);
    assert forall a :: a in OthersIn(rows, bundle, e) <==> a in rest;
    forall i | 0 <= i < |order| ensures order[i] in rest && order[i] in t' && t'[order[i]] == i {
      var a := order[i];
      assert a in order && a in OthersIn(rows, bundle, e);
      assert a in rows' && rows'[a].bundle == bundle && rows'[a].position == Some(i);
    }
    assert Sorted(rest, order);
    forall a | a in t' ensures 0 <= t'[a] < |order| && order[t'[a]] == a {
      assert a in order;
      var k :| 0 <= k < |order| && order[k] == a;
    }
    CompactedIsRank(rest, order, t');
    assert t' == Destroyed(Section(rows, bundle), e);
  }

  lemma RestIsList(t: Table, list: seq<Id>, e: Id, order: seq<Id>)
    requires Lists(t, list) && e in t && Sorted(t - {e}, order)
    ensures forall k :: 0 <= k < |order| ==> order[k] in t && t[order[k]] == if k < t[e] then k else k + 1
  {
    DestroyRemoves(t, list, e);
    DestroyCompacts(t, e);
    SortedUnique(t - {e}, order, Listing(t - {e}));
    ListsUnique(Destroyed(t, e), order, RemoveAt(list, t[e]));
    RemovedPlaces(t, list, e);
  }

  lemma RemovedPlaces(t: Table, list: seq<Id>, e: Id)
    requires Lists(t, list) && e in t
    ensures forall k :: 0 <= k < |RemoveAt(list, t[e])| ==>
              RemoveAt(list, t[e])[k] in t && t[RemoveAt(list, t[e])[k]] == if k < t[e] then k else k + 1
  {}

  lemma ListsUnique(t: Table, o1: seq<Id>, o2: seq<Id>)
    requires Lists(t, o1) && Lists(t, o2)
    ensures o1 == o2
  {
    NoLonger(t, o1, o2);
    NoLonger(t, o2, o1);
    forall i | 0 <= i < |o1| ensures o1[i] == o2[i] {
      assert o2[t[o1[i]]] == o1[i];
    }
  }

  lemma NoLonger(t: Table, o1: seq<Id>, o2: seq<Id>)
    requires Lists(t, o1) && Lists(t, o2)
    ensures |o2| <= |o1|
  {
    if o2 != [] {
      var x := o2[|o2| - 1];
      assert x in t && t[x] == |o2| - 1;
    }
  }

  class ItemBitstreams {
    var rows: Rows

    method Create(e: Id, bundle: int, p: Option<int>)
      requires e !in rows
      modifies this
      ensures e in rows && rows[e] == Row(bundle, p)
      ensures SameOutside(old(rows), rows - {e}, bundle)
      ensures forall a :: a in old(rows) ==>
                var r := old(rows)[a];
                && a in rows
                && rows[a] == if p.Some? && r.bundle == bundle && r.position.Some? && r.position.value >= p.value
                              then Row(bundle, Some(r.position.value + 1)) else r
      ensures Section(rows, bundle) ==
              if p.Some? then Created(Section(old(rows), bundle), e, p.value) else Section(old(rows), bundle)
    {
      ghost var was := rows;
      if p.Some? {
        var todo := set a | a in rows && rows[a].bundle == bundle && rows[a].position.Some?
                            && rows[a].position.value >= p.value;
        while todo != {}
          invariant todo <= rows.Keys == was.Keys
          invariant forall a :: a in todo ==> rows[a] == was[a] && was[a].bundle == bundle
                                              && was[a].position.Some? && was[a].position.value >= p.value
          invariant forall a :: a in was && a !in todo ==>
                      if was[a].bundle == bundle && was[a].position.Some? && was[a].position.value >= p.value
                      then rows[a] == Row(bundle, Some(was[a].position.value + 1))
                      else rows[a] == was[a]
        {
          ghost var any := Pick(todo);
          var a :| a in todo;
          rows := rows[a := Row(bundle, Some(rows[a].position.value + 1))];
          todo := todo - {a};
        }
      }
      rows := rows[e := Row(bundle, p)];
      assert rows - {e} == map a | a in was :: rows[a];
      ghost var expected := if p.Some? then Created(Section(was, bundle), e, p.value) else Section(was, bundle);
      forall a ensures a in Section(rows, bundle) <==> a in expected {}
      forall a | a in expected ensures Section(rows, bundle)[a] == expected[a] {}
    }

    /** Saves a row under a new bundle position; the other rows of the bundle are renumbered. */
    method UpdatePosition(e: Id, p: Option<int>)
      requires e in rows
      modifies this
      ensures rows.Keys == old(rows).Keys
      ensures rows[e] == old(rows)[e].(position := p)
      ensures SameOutside(old(rows), rows, old(rows)[e].bundle)
      ensures p == old(rows)[e].position ==> rows == old(rows)
      ensures p != old(rows)[e].position ==>
                exists order :: SortedRows(old(rows), OthersIn(old(rows), old(rows)[e].bundle, e), order)
                                && NumberedAround(rows, order, p)
                                && forall k :: 0 <= k < |order| ==>
                                     rows[order[k]].position == Some(if p.Some? && 0 <= p.value <= k then k + 1 else k)
      ensures forall list {:trigger Lists(Section(old(rows), old(rows)[e].bundle), list)} ::
                p.Some? && 0 <= p.value && FullyNumbered(old(rows), old(rows)[e].bundle)
                && Lists(Section(old(rows), old(rows)[e].bundle), list) ==>
                Section(rows, old(rows)[e].bundle) == Moved(Section(old(rows), old(rows)[e].bundle), e, p.value)
    {
      ghost var was := rows;
      var bundle := rows[e].bundle;
      if p == rows[e].position {
        assert p.Some? ==> Section(was, bundle)[e] == p.value;
        return;
      }
      var order := OrderByPosition(OthersIn(rows, bundle, e));
      var position := 0;
      for i := 0 to |order|
        invariant position == i + (if p.Some? && 0 <= p.value < i then 1 else 0)
        invariant rows.Keys == was.Keys && rows[e] == was[e] && SameOutside(was, rows, bundle)
        invariant forall k :: 0 <= k < i ==> rows[order[k]].position == Some(Slot(k, p))
        invariant forall k :: i <= k < |order| ==> rows[order[k]] == was[order[k]]
      {
        if p == Some(position) { position := position + 1; }
        assert order[i] in order;
        rows := rows[order[i] := rows[order[i]].(position := Some(position))];
        position := position + 1;
      }
      forall k | 0 <= k < |order| ensures order[k] != e { assert order[k] in order; }
      rows := rows[e := rows[e].(position := p)];
      assert NumberedAround(rows, order, p);
      forall list | p.Some? && 0 <= p.value && FullyNumbered(was, bundle) && Lists(Section(was, bundle), list)
        ensures Section(rows, bundle) == Moved(Section(was, bundle), e, p.value)
      {
        RenumberIsRangeShift(was, bundle, list, e, p.value, order, rows);
      }
    }

    /** Deletes a row; a row that had a position makes its bundle be renumbered from 0. */
    method Destroy(e: Id)
      requires e in rows
      modifies this
      ensures rows.Keys == old(rows).Keys - {e}
      ensures SameOutside(old(rows) - {e}, rows, old(rows)[e].bundle)
      ensures old(rows)[e].position.None? ==> rows == old(rows) - {e}
      ensures old(rows)[e].position.Some? ==>
                exists order :: SortedRows(old(rows), OthersIn(old(rows), old(rows)[e].bundle, e), order)
                                && NumberedAround(rows, order, None)
                                && forall k :: 0 <= k < |order| ==> rows[order[k]].position == Some(k)
      ensures FullyNumbered(old(rows), old(rows)[e].bundle) && Distinct(Section(old(rows), old(rows)[e].bundle)) ==>
                Section(rows, old(rows)[e].bundle) == Destroyed(Section(old(rows), old(rows)[e].bundle), e)
    {
      var gone := rows[e];
      rows := rows - {e};
      ghost var rest := rows;
      if gone.position.Some? {
        var order := OrderByPosition(OthersIn(rows, gone.bundle, e));
        for position := 0 to |order|
          invariant rows.Keys == rest.Keys && SameOutside(rest, rows, gone.bundle)
          invariant forall k :: 0 <= k < position ==> rows[order[k]].position == Some(k)
          invariant forall k :: position <= k < |order| ==> rows[order[k]] == rest[order[k]]
        {
          assert order[position] in order;
          if rows[order[position]].position != Some(position) {
            rows := rows[order[position] := rows[order[position]].(position := Some(position))];
          }
        }
        assert OthersIn(rest, gone.bundle, e) == OthersIn(old(rows), gone.bundle, e);
        assert SortedRows(old(rows), OthersIn(old(rows), gone.bundle, e), order);
        if FullyNumbered(old(rows), gone.bundle) && Distinct(Section(old(rows), gone.bundle)) {
          RenumberIsCompaction(old(rows), gone.bundle, e, order, rows);
        }
      }
    }

    method OrderByPosition(ids: set<Id>) returns (order: seq<Id>)
      requires ids <= rows.Keys
      ensures SortedRows(rows, ids, order)
      ensures forall i, j :: 0 <= i < j < |order| ==>
                var p, q := rows[order[i]].position, rows[order[j]].position;
                q.None? || (p.Some? && p.value <= q.value)
    {
      order := [];
      var todo := ids;
      while todo != {}
        invariant todo <= ids
        invariant SortedRows(rows, ids - todo, order)
        invariant forall i, a :: 0 <= i < |order| && a in todo ==>
                    order[i] in rows && NotAfter(rows[order[i]].position, rows[a].position)
      {
        ghost var first := FirstRow(rows, todo);
        var m :| m in todo && forall a :: a in todo ==> NotAfter(rows[m].position, rows[a].position);
        order := order + [m];
        todo := todo - {m};
      }
    }
  }

  lemma {:induction false} FirstRow(rows: Rows, ids: set<Id>) returns (m: Id)
    requires ids != {} && ids <= rows.Keys
    ensures m in ids && forall a :: a in ids ==> NotAfter(rows[m].position, rows[a].position)
  {
    m := Pick(ids);
    if ids != {m} {
      var n := FirstRow(rows, ids - {m});
      if !NotAfter(rows[m].position, rows[n].position) { m := n; }
    }
  }
}
