/**
  The four download reporting tables. The item table is the source; the
  collection, unit and institution tables are aggregates of it that are kept up
  to date one download at a time.
 */
module DownloadTables {
  import opened Calendar
  import opened Sets
  import opened Wrappers

  datatype ItemKey = ItemKey(institution: int, unit: int, collection: int, item: int, month: Month)

  datatype CoarseKey = CoarseKey(id: int, month: Month)

  type ItemTable = map<ItemKey, nat>
  type CoarseTable = map<CoarseKey, nat>

  function ByCollection(k: ItemKey): CoarseKey { CoarseKey(k.collection, k.month) }

  function ByUnit(k: ItemKey): CoarseKey { CoarseKey(k.unit, k.month) }

  function ByInstitution(k: ItemKey): CoarseKey { CoarseKey(k.institution, k.month) }

  function MonthOf(k: CoarseKey): Month { k.month }

  // ----- sums and GROUP BY -----

  ghost function Total<K(!new)>(t: map<K, nat>, ks: set<K>): nat
    requires ks <= t.Keys
  {
    if ks == {} then 0 else
    var k := Pick(ks);
    t[k] + Total(t, ks - {k})
  }

  lemma {:induction false} TotalRemove<K(!new)>(t: map<K, nat>, ks: set<K>, k: K)
    requires k in ks && ks <= t.Keys
    ensures Total(t, ks) == t[k] + Total(t, ks - {k})
  {
    var j := Pick(ks);
    if j != k {
      TotalRemove(t, ks - {j}, k);
      TotalRemove(t, ks - {k}, j);
      assert ks - {j} - {k} == ks - {k} - {j};
    }
  }

  lemma {:induction false} TotalAgree<K(!new)>(t: map<K, nat>, u: map<K, nat>, ks: set<K>)
    requires ks <= t.Keys && ks <= u.Keys && forall k :: k in ks ==> t[k] == u[k]
    ensures Total(t, ks) == Total(u, ks)
  {
    if ks != {} { TotalAgree(t, u, ks - {Pick(ks)}); }
  }

  lemma {:induction false} TotalSplit<K(!new)>(t: map<K, nat>, a: set<K>, b: set<K>)
    requires a !! b && a <= t.Keys && b <= t.Keys
    ensures Total(t, a + b) == Total(t, a) + Total(t, b)
  {
    if a == {} {
      assert a + b == b;
    } else {
      var k := Pick(a);
      TotalSplit(t, a - {k}, b);
      TotalRemove(t, a + b, k);
      assert a + b - {k} == (a - {k}) + b;
    }
  }

  function AddTo<K>(t: map<K, nat>, k: K, n: nat): map<K, nat> {
    t[k := (if k in t then t[k] else 0) + n]
  }

  /** INSERT with count 1, or add 1 on conflict. */
  function Upsert<K>(t: map<K, nat>, k: K): map<K, nat> {
    t[k := if k in t then t[k] + 1 else 1]
  }

  ghost function Group<K(!new), J(!new)>(t: map<K, nat>, g: K -> J, j: J): set<K> {
    set k | k in t && g(k) == j
  }

  /** One row per group that occurs, with the sum of its counts. */
  ghost function GroupBy<K(!new), J(!new)>(t: map<K, nat>, g: K -> J): map<J, nat> {
    map j | j in (set k | k in t :: g(k)) :: Total(t, Group(t, g, j))
  }

  lemma TotalAddTo<K(!new)>(t: map<K, nat>, k: K, n: nat, ks: set<K>, ks': set<K>)
    requires ks <= t.Keys && ks' == ks + {k} && (k in t ==> k in ks)
    ensures Total(AddTo(t, k, n), ks') == Total(t, ks) + n
  {
    TotalRemove(AddTo(t, k, n), ks', k);
    TotalAgree(AddTo(t, k, n), t, ks - {k});
    assert ks' - {k} == ks - {k};
    if k in t { TotalRemove(t, ks, k); } else { assert ks - {k} == ks; }
  }

  /** Adding to a row and adding to its group commute with the aggregate. */
  lemma GroupAddTo<K(!new), J(!new)>(t: map<K, nat>, k: K, n: nat, g: K -> J)
    ensures GroupBy(AddTo(t, k, n), g) == AddTo(GroupBy(t, g), g(k), n)
  {
    var t' := AddTo(t, k, n);
    var l, r := GroupBy(t', g), AddTo(GroupBy(t, g), g(k), n);
    forall j ensures j in l <==> j in r {
      if j in r && j != g(k) {
        var i :| i in t && g(i) == j;
        assert i in t';
      }
      assert k in t';
    }
    forall j | j in l ensures l[j] == r[j] {
      if j == g(k) {
        assert Group(t', g, j) == Group(t, g, j) + {k};
        TotalAddTo(t, k, n, Group(t, g, j), Group(t', g, j));
        if j !in GroupBy(t, g) { assert Group(t, g, j) == {}; }
      } else {
        assert Group(t', g, j) == Group(t, g, j);
        TotalAgree(t', t, Group(t, g, j));
      }
    }
    assert l.Keys == r.Keys;
  }

  lemma GroupUpsert<K(!new), J(!new)>(t: map<K, nat>, k: K, g: K -> J)
    ensures GroupBy(Upsert(t, k), g) == Upsert(GroupBy(t, g), g(k))
  {
    GroupAddTo(t, k, 1, g);
    assert Upsert(t, k) == AddTo(t, k, 1);
    assert Upsert(GroupBy(t, g), g(k)) == AddTo(GroupBy(t, g), g(k), 1);
  }

  ghost function Preimage<K(!new), J(!new)>(t: map<K, nat>, g: K -> J, js: set<J>): set<K> {
    set k | k in t && g(k) in js
  }

  /** Summing some groups of the aggregate sums their rows in the source. */
  lemma {:induction false} GroupTotals<K(!new), J(!new)>(t: map<K, nat>, g: K -> J, js: set<J>)
    requires js <= GroupBy(t, g).Keys
    ensures Total(GroupBy(t, g), js) == Total(t, Preimage(t, g, js))
  {
    var ks := Preimage(t, g, js);
    if js == {} {
      assert ks == {};
    } else {
      var j := Pick(js);
      GroupTotals(t, g, js - {j});
      var rest := Preimage(t, g, js - {j});
      assert ks == Group(t, g, j) + rest;
      TotalSplit(t, Group(t, g, j), rest);
    }
  }

  /** Hash aggregation of a table. */
  method Aggregate<K(!new,==), J(!new,==)>(t: map<K, nat>, g: K -> J) returns (r: map<J, nat>)
    ensures r == GroupBy(t, g)
  {
    r := map[];
    var todo := t.Keys;
    ghost var done: map<K, nat> := map[];
    assert GroupBy(done, g) == map[];
    while todo != {}
      invariant todo <= t.Keys
      invariant done == map k | k in t.Keys - todo :: t[k]
      invariant r == GroupBy(done, g)
    {
      ghost var any := Pick(todo);
      var k :| k in todo;
      GroupAddTo(done, k, t[k], g);
      r := AddTo(r, g(k), t[k]);
      done := AddTo(done, k, t[k]);
      todo := todo - {k};
    }
    assert done == t;
  }

  // ----- the state and its runs -----

  /** What the `owning_ids` query returns for an item; re-owning the item changes it. */
  datatype OwningIds = OwningIds(collection: Option<int>, unit: Option<int>, institution: Option<int>)

  predicate Complete(ids: OwningIds) {
    ids.institution.Some? && ids.unit.Some? && ids.collection.Some?
  }

  function KeyFor(item: int, ids: OwningIds, month: Month): ItemKey
    requires Complete(ids)
  {
    ItemKey(ids.institution.value, ids.unit.value, ids.collection.value, item, month)
  }

  datatype State = State(items: ItemTable, collections: CoarseTable, units: CoarseTable, institutions: CoarseTable)

  /** Each coarse table is what `compile_counts` would put there. */
  ghost predicate Agrees(s: State) {
    && s.collections == GroupBy(s.items, ByCollection)
    && s.units == GroupBy(s.items, ByUnit)
    && s.institutions == GroupBy(s.items, ByInstitution)
  }

  datatype Command =
    | Download(item: int, ids: OwningIds, month: Month)
    | CompileCollections
    | CompileUnits
    | CompileInstitutions

  ghost function Step(s: State, c: Command): State {
    match c
    case Download(item, ids, month) =>
      if !Complete(ids) then s else
      var k := KeyFor(item, ids, month);
      State(Upsert(s.items, k), Upsert(s.collections, ByCollection(k)),
            Upsert(s.units, ByUnit(k)), Upsert(s.institutions, ByInstitution(k)))
    case CompileCollections => s.(collections := GroupBy(s.items, ByCollection))
    case CompileUnits => s.(units := GroupBy(s.items, ByUnit))
    case CompileInstitutions => s.(institutions := GroupBy(s.items, ByInstitution))
  }

  ghost function Run(s: State, cs: seq<Command>): State
  {
    if cs == [] then s else Step(Run(s, cs[..|cs| - 1]), cs[|cs| - 1])
  }

  lemma StepKeepsAgreement(s: State, c: Command)
    requires Agrees(s)
    ensures Agrees(Step(s, c))
    ensures !c.Download? ==> Step(s, c) == s
  {
    if c.Download? && Complete(c.ids) {
      var k := KeyFor(c.item, c.ids, c.month);
      GroupUpsert(s.items, k, ByCollection);
      GroupUpsert(s.items, k, ByUnit);
      GroupUpsert(s.items, k, ByInstitution);
    }
  }

  /** However downloads, re-ownings and recompilations interleave, the three aggregates stay exact. */
  lemma {:induction false} RunKeepsAgreement(s: State, cs: seq<Command>)
    requires Agrees(s)
    ensures Agrees(Run(s, cs))
  {
    if cs != [] {
      var front := cs[..|cs| - 1];
      RunKeepsAgreement(s, front);
      StepKeepsAgreement(Run(s, front), cs[|cs| - 1]);
    }
  }

  const EMPTY := State(map[], map[], map[], map[])

  // ----- what the tables count -----

  /** The rows a report reads: some IDs, over an interval of months. */
  ghost function Matching(t: CoarseTable, ids: set<int>, lo: int, hi: int): set<CoarseKey> {
    set k | k in t && k.id in ids && lo <= Index(k.month) <= hi
  }

  ghost function Hits(t: CoarseTable, ids: set<int>, lo: int, hi: int): nat {
    Total(t, Matching(t, ids, lo, hi))
  }

  /** The same question put to the item table. */
  ghost function SourceHits(t: ItemTable, g: ItemKey -> CoarseKey, ids: set<int>, lo: int, hi: int): nat {
    Total(t, SourceMatching(t, g, ids, lo, hi))
  }

  ghost function SourceMatching(t: ItemTable, g: ItemKey -> CoarseKey, ids: set<int>, lo: int, hi: int): set<ItemKey> {
    set k | k in t && g(k).id in ids && lo <= Index(g(k).month) <= hi
  }

  /** An aggregate answers every report as the item table itself would. */
  lemma AggregateAnswers(t: ItemTable, g: ItemKey -> CoarseKey, ids: set<int>, lo: int, hi: int)
    ensures Hits(GroupBy(t, g), ids, lo, hi) == SourceHits(t, g, ids, lo, hi)
  {
    var js := Matching(GroupBy(t, g), ids, lo, hi);
    GroupTotals(t, g, js);
    forall k | k in t ensures g(k) in GroupBy(t, g) {}
    assert Preimage(t, g, js) == SourceMatching(t, g, ids, lo, hi);
  }

  ghost predicate Counts(c: Command, g: ItemKey -> CoarseKey, ids: set<int>, lo: int, hi: int) {
    c.Download? && Complete(c.ids)
    && g(KeyFor(c.item, c.ids, c.month)).id in ids
    && lo <= Index(g(KeyFor(c.item, c.ids, c.month)).month) <= hi
  }

  /** Where in a history the downloads are that a report is about. */
  ghost function Counted(cs: seq<Command>, g: ItemKey -> CoarseKey, ids: set<int>, lo: int, hi: int): set<int> {
    set k | 0 <= k < |cs| && Counts(cs[k], g, ids, lo, hi)
  }

  lemma UpsertHits(t: ItemTable, k: ItemKey, g: ItemKey -> CoarseKey, ids: set<int>, lo: int, hi: int)
    ensures SourceHits(Upsert(t, k), g, ids, lo, hi)
            == SourceHits(t, g, ids, lo, hi) + if g(k).id in ids && lo <= Index(g(k).month) <= hi then 1 else 0
  {
    var t' := Upsert(t, k);
    var ks, ks' := SourceMatching(t, g, ids, lo, hi), SourceMatching(t', g, ids, lo, hi);
    if g(k).id in ids && lo <= Index(g(k).month) <= hi {
      assert ks' == ks + {k};
      TotalAddTo(t, k, 1, ks, ks');
    } else {
      assert ks' == ks;
      TotalAgree(t', t, ks);
    }
  }

  lemma CountedNext(cs: seq<Command>, g: ItemKey -> CoarseKey, ids: set<int>, lo: int, hi: int)
    requires cs != []
    ensures |Counted(cs, g, ids, lo, hi)| ==
            |Counted(cs[..|cs| - 1], g, ids, lo, hi)| + if Counts(cs[|cs| - 1], g, ids, lo, hi) then 1 else 0
  {
    var n := |cs| - 1;
    assert Counted(cs, g, ids, lo, hi) ==
           Counted(cs[..n], g, ids, lo, hi) + if Counts(cs[n], g, ids, lo, hi) then {n} else {};
  }

  lemma StepHits(s: State, c: Command, g: ItemKey -> CoarseKey, ids: set<int>, lo: int, hi: int)
    ensures SourceHits(Step(s, c).items, g, ids, lo, hi)
            == SourceHits(s.items, g, ids, lo, hi) + if Counts(c, g, ids, lo, hi) then 1 else 0
  {
    if c.Download? && Complete(c.ids) { UpsertHits(s.items, KeyFor(c.item, c.ids, c.month), g, ids, lo, hi); }
  }

  lemma {:induction false} RunHits(s: State, cs: seq<Command>, g: ItemKey -> CoarseKey, ids: set<int>, lo: int, hi: int)
    ensures SourceHits(Run(s, cs).items, g, ids, lo, hi)
            == SourceHits(s.items, g, ids, lo, hi) + |Counted(cs, g, ids, lo, hi)|
  {
    if cs == [] {
      assert Counted(cs, g, ids, lo, hi) == {};
    } else {
      var front, c := cs[..|cs| - 1], cs[|cs| - 1];
      RunHits(s, front, g, ids, lo, hi);
      StepHits(Run(s, front), c, g, ids, lo, hi);
      CountedNext(cs, g, ids, lo, hi);
    }
  }

  /**
    From empty tables, a report counts exactly the downloads of the history that
    were recorded in its months with one of its IDs as the owner.
   */
  lemma ReportsCountHistory(cs: seq<Command>, ids: set<int>, lo: int, hi: int)
    ensures var s := Run(EMPTY, cs);
            && Hits(s.collections, ids, lo, hi) ==
               |set k | 0 <= k < |cs| && cs[k].Download? && Complete(cs[k].ids) && cs[k].ids.collection.value in ids
                        && lo <= 12 * cs[k].month.year + cs[k].month.month <= hi|
            && Hits(s.units, ids, lo, hi) ==
               |set k | 0 <= k < |cs| && cs[k].Download? && Complete(cs[k].ids) && cs[k].ids.unit.value in ids
                        && lo <= 12 * cs[k].month.year + cs[k].month.month <= hi|
            && Hits(s.institutions, ids, lo, hi) ==
               |set k | 0 <= k < |cs| && cs[k].Download? && Complete(cs[k].ids) && cs[k].ids.institution.value in ids
                        && lo <= 12 * cs[k].month.year + cs[k].month.month <= hi|
  {
    RunKeepsAgreement(EMPTY, cs);
    TableCounts(cs, ByCollection, ids, lo, hi);
    TableCounts(cs, ByUnit, ids, lo, hi);
    TableCounts(cs, ByInstitution, ids, lo, hi);
    CountedAre(cs, ids, lo, hi);
  }

  lemma CountedAre(cs: seq<Command>, ids: set<int>, lo: int, hi: int)
    ensures Counted(cs, ByCollection, ids, lo, hi) ==
            set k | 0 <= k < |cs| && cs[k].Download? && Complete(cs[k].ids) && cs[k].ids.collection.value in ids
                    && lo <= 12 * cs[k].month.year + cs[k].month.month <= hi
    ensures Counted(cs, ByUnit, ids, lo, hi) ==
            set k | 0 <= k < |cs| && cs[k].Download? && Complete(cs[k].ids) && cs[k].ids.unit.value in ids
                    && lo <= 12 * cs[k].month.year + cs[k].month.month <= hi
    ensures Counted(cs, ByInstitution, ids, lo, hi) ==
            set k | 0 <= k < |cs| && cs[k].Download? && Complete(cs[k].ids) && cs[k].ids.institution.value in ids
                    && lo <= 12 * cs[k].month.year + cs[k].month.month <= hi
  {}

  lemma TableCounts(cs: seq<Command>, g: ItemKey -> CoarseKey, ids: set<int>, lo: int, hi: int)
    ensures Hits(GroupBy(Run(EMPTY, cs).items, g), ids, lo, hi) == |Counted(cs, g, ids, lo, hi)|
  {
    AggregateAnswers(Run(EMPTY, cs).items, g, ids, lo, hi);
    RunHits(EMPTY, cs, g, ids, lo, hi);
  }

  ghost function Grand<K(!new)>(t: map<K, nat>): nat {
    Total(t, t.Keys)
  }

  lemma GroupKeepsGrand<K(!new), J(!new)>(t: map<K, nat>, g: K -> J)
    ensures Grand(GroupBy(t, g)) == Grand(t)
  {
    var js := GroupBy(t, g).Keys;
    GroupTotals(t, g, js);
    assert Preimage(t, g, js) == t.Keys;
  }

  ghost function CompleteDownloads(cs: seq<Command>): set<int> {
    set k | 0 <= k < |cs| && cs[k].Download? && Complete(cs[k].ids)
  }

  lemma StepGrand(s: State, c: Command)
    ensures Grand(Step(s, c).items) == Grand(s.items) + if c.Download? && Complete(c.ids) then 1 else 0
  {
    if c.Download? && Complete(c.ids) {
      var k := KeyFor(c.item, c.ids, c.month);
      TotalAddTo(s.items, k, 1, s.items.Keys, Upsert(s.items, k).Keys);
    }
  }

  lemma CompleteNext(cs: seq<Command>)
    requires cs != []
    ensures var c := cs[|cs| - 1];
            |CompleteDownloads(cs)| ==
            |CompleteDownloads(cs[..|cs| - 1])| + if c.Download? && Complete(c.ids) then 1 else 0
  {
    var n := |cs| - 1;
    assert CompleteDownloads(cs) ==
           CompleteDownloads(cs[..n]) + if cs[n].Download? && Complete(cs[n].ids) then {n} else {};
  }

  lemma {:induction false} RunGrand(s: State, cs: seq<Command>)
    ensures Grand(Run(s, cs).items) == Grand(s.items) + |CompleteDownloads(cs)|
  {
    if cs == [] {
      assert CompleteDownloads(cs) == {};
    } else {
      var n := |cs| - 1;
      RunGrand(s, cs[..n]);
      StepGrand(Run(s, cs[..n]), cs[n]);
      CompleteNext(cs);
    }
  }

  /** All four tables hold the same total: the number of downloads whose owning IDs were complete. */
  lemma TotalsAreDownloads(cs: seq<Command>)
    ensures var s := Run(EMPTY, cs);
            && Grand(s.items) == Grand(s.collections) == Grand(s.units) == Grand(s.institutions)
            && Grand(s.items) ==
               |set k | 0 <= k < |cs| && cs[k].Download? && cs[k].ids.collection.Some? && cs[k].ids.unit.Some?
                        && cs[k].ids.institution.Some?|
  {
    var s := Run(EMPTY, cs);
    RunKeepsAgreement(EMPTY, cs);
    RunGrand(EMPTY, cs);
    GroupKeepsGrand(s.items, ByCollection);
    GroupKeepsGrand(s.items, ByUnit);
    GroupKeepsGrand(s.items, ByInstitution);
    assert CompleteDownloads(cs) ==
           set k | 0 <= k < |cs| && cs[k].Download? && cs[k].ids.collection.Some? && cs[k].ids.unit.Some?
                   && cs[k].ids.institution.Some?;
  }
}
