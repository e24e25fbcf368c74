/** The burial operations on rows that change in place, and the plan that buries a unit's subtree. */
module Hierarchy {
  import opened Burial
  import opened Forest
  import opened Lexicographic
  import opened Sets
  import opened Wrappers

  class Tables {
    var items: map<int, Item>
    var collections: map<int, Collection>
    var units: map<int, Burial.Unit>

    ghost function Now(): State
      reads this
    {
      State(items, collections, units)
    }

    method BuryItem(i: int)
      requires i in items
      modifies this`items
      ensures var it := old(items[i]);
              items == old(items)[i := if it.stage == 500 then it
                                       else Item(500, None, Some(it.stage), it.reason, it.collections)]
      ensures Outcome(Now(), true) == Bury(old(Now()), I(i))
      ensures old(NoOrphans(Now())) ==> NoOrphans(Now())
    {
      if NoOrphans(Now()) { StepKeepsOwners(Now(), BuryOne(I(i))); }
      if items[i].stage != BURIED {
        items := items[i := BuriedItem(items[i])];
      }
    }

    method ExhumeItem(i: int) returns (ok: bool)
      requires i in items
      modifies this`items
      ensures ok <==> old(items[i].stage != 500 || items[i].previousStage == Some(500)
                          || exists c :: c in items[i].collections && c in collections && !collections[c].buried)
      ensures ok && old(items[i].stage == 500 && items[i].previousStage != Some(500)) ==>
                var it := old(items[i]);
                items == old(items)[i := Item(if it.previousStage.Some? then it.previousStage.value else 300,
                                              if it.previousReason == it.reason then None else it.previousReason,
                                              Some(500), it.reason, it.collections)]
      ensures ok && old(items[i].stage == 500 && items[i].previousStage == Some(500)) ==>
                items == old(items[i := items[i].(reason := items[i].previousReason)])
      ensures !ok || old(items[i].stage != 500) ==> items == old(items)
      ensures Outcome(Now(), ok) == Exhume(old(Now()), I(i))
      ensures old(NoOrphans(Now())) ==> NoOrphans(Now())
    {
      if NoOrphans(Now()) { StepKeepsOwners(Now(), ExhumeOne(I(i))); }
      ok := true;
      if items[i].stage == BURIED {
        var it := ExhumedItem(items[i]);
        if it.stage != BURIED && !exists c :: c in items[i].collections && c in collections && !collections[c].buried {
          assert !HasLiveCollection(Now(), i);
          return false;
        }
        items := items[i := it];
      }
    }

    method BuryCollection(c: int) returns (ok: bool)
      requires c in collections
      modifies this`collections
      ensures ok <==> old(collections[c].buried
                          || ((forall i :: i in items && c in items[i].collections ==> items[i].stage == 500)
                              && forall d :: d in collections && collections[d].parent == Some(c) ==>
                                   collections[d].buried))
      ensures collections == if ok then old(collections[c := collections[c].(buried := true)]) else old(collections)
      ensures Outcome(Now(), ok) == Bury(old(Now()), C(c))
      ensures old(NoOrphans(Now())) ==> NoOrphans(Now())
    {
      if NoOrphans(Now()) { StepKeepsOwners(Now(), BuryOne(C(c))); }
      if collections[c].buried { return true; }
      if exists i :: i in items && c in items[i].collections && items[i].stage != BURIED { return false; }
      if exists d :: d in collections && collections[d].parent == Some(c) && !collections[d].buried { return false; }
      collections := collections[c := collections[c].(buried := true)];
      ok := true;
    }

    method ExhumeCollection(c: int) returns (ok: bool)
      requires c in collections
      modifies this`collections
      ensures ok <==> old(!collections[c].buried
                          || exists u :: u in collections[c].units && u in units && !units[u].buried)
      ensures collections == if ok then old(collections[c := collections[c].(buried := false)]) else old(collections)
      ensures Outcome(Now(), ok) == Exhume(old(Now()), C(c))
      ensures old(NoOrphans(Now())) ==> NoOrphans(Now())
    {
      if NoOrphans(Now()) { StepKeepsOwners(Now(), ExhumeOne(C(c))); }
      if !collections[c].buried { return true; }
      if !exists u :: u in collections[c].units && u in units && !units[u].buried {
        assert !HasLiveUnit(Now(), c);
        return false;
      }
      collections := collections[c := collections[c].(buried := false)];
      ok := true;
    }

    method BuryUnit(u: int) returns (ok: bool)
      requires u in units
      modifies this`units
      ensures ok <==> old(units[u].buried
                          || ((forall v :: v in units && units[v].parent == Some(u) ==> units[v].buried)
                              && forall c :: c in collections && u in collections[c].units ==> collections[c].buried))
      ensures units == if ok then old(units[u := units[u].(buried := true)]) else old(units)
      ensures Outcome(Now(), ok) == Bury(old(Now()), U(u))
      ensures old(NoOrphans(Now())) ==> NoOrphans(Now())
    {
      if NoOrphans(Now()) { StepKeepsOwners(Now(), BuryOne(U(u))); }
      if units[u].buried { return true; }
      if exists v :: v in units && units[v].parent == Some(u) && !units[v].buried { return false; }
      if exists c :: c in collections && u in collections[c].units && !collections[c].buried { return false; }
      units := units[u := units[u].(buried := true)];
      ok := true;
    }

    method ExhumeUnit(u: int)
      requires u in units
      modifies this`units
      ensures units == old(units[u := units[u].(buried := false)])
      ensures Outcome(Now(), true) == Exhume(old(Now()), U(u))
      ensures old(NoOrphans(Now())) ==> NoOrphans(Now())
    {
      if NoOrphans(Now()) { StepKeepsOwners(Now(), ExhumeOne(U(u))); }
      if units[u].buried {
        units := units[u := units[u].(buried := false)];
      }
    }
  }

  // ----- a plan for a unit's subtree -----

  ghost function UnitParents(s: State): Parents {
    map u | u in s.units :: s.units[u].parent
  }

  lemma NotRootAgain(f: Parents, u: int, j: nat)
    requires IsForest(f) && u in f && 0 < j < |Preorder(f, u)|
    ensures Preorder(f, u)[j] != u
  {
    PreorderNoRepeats(f, u);
  }

  /** In the walk, a parent comes before its children. */
  lemma ParentEarlier(f: Parents, u: int, i: nat, j: nat)
    requires IsForest(f) && u in f && i < |Preorder(f, u)| && j < |Preorder(f, u)|
    requires Preorder(f, u)[j] in f && f[Preorder(f, u)[j]] == Some(Preorder(f, u)[i]) && j != 0
    ensures i < j
  {
    var ps := PathWalk(f, [u]);
    WalkRow(f, u, i);
    WalkRow(f, u, j);
    PathWalkAscending(f, [u]);
    var p, q := ps[i], ps[j];
    NotRootAgain(f, u, j);
    PathExtends(f, p, q);
    if j < i { Transitive(p, q, p); }
    Irreflexive(p);
  }

  /** The path to a child is the path to its parent and one step more. */
  lemma PathExtends(f: Parents, p: Word, q: Word)
    requires IsForest(f) && IsPath(f, p) && IsPath(f, q) && p[0] == q[0]
    requires q[|q| - 1] != q[0] && f[q[|q| - 1]] == Some(p[|p| - 1])
    ensures Less(p, q)
  {
    var front := q[..|q| - 1];
    assert IsPath(f, front);
    PathUnique(f, front, p);
    SharedPrefix(p, [], [q[|q| - 1]]);
    assert p + [] == p && p + [q[|q| - 1]] == q;
  }

  /** Items, then collections, then the units of the walk from the last to the first. */
  ghost function Plan(items: seq<int>, collections: seq<int>, walk: seq<int>): seq<Entity> {
    seq(|items|, k requires 0 <= k < |items| => I(items[k]))
    + seq(|collections|, k requires 0 <= k < |collections| => C(collections[k]))
    + seq(|walk|, k requires 0 <= k < |walk| => U(walk[|walk| - 1 - k]))
  }

  /** The live units of the walk, in its order; the others stay as they are. */
  ghost function LiveUnits(s: State, walk: seq<int>): seq<int> {
    if walk == [] then []
    else (if Live(s, U(walk[0])) then [walk[0]] else []) + LiveUnits(s, walk[1..])
  }

  lemma {:induction false} LiveUnitsAre(s: State, walk: seq<int>)
    ensures forall v :: v in LiveUnits(s, walk) <==> v in walk && Live(s, U(v))
    ensures NoRepeats(walk) ==> NoRepeats(LiveUnits(s, walk))
  {
    if walk != [] { LiveUnitsAre(s, walk[1..]); }
  }

  /** Filtering keeps the order. */
  lemma {:induction false} LiveUnitsInOrder(s: State, walk: seq<int>, k: nat, l: nat)
    requires NoRepeats(walk) && k < |LiveUnits(s, walk)| && l < |walk|
    requires Live(s, U(walk[l])) && exists i :: 0 <= i < l && walk[i] == LiveUnits(s, walk)[k]
    ensures exists m :: k < m < |LiveUnits(s, walk)| && LiveUnits(s, walk)[m] == walk[l]
  {
    var live, rest := LiveUnits(s, walk), LiveUnits(s, walk[1..]);
    var i :| 0 <= i < l && walk[i] == live[k];
    LiveUnitsAre(s, walk[1..]);
    assert walk[1..][l - 1] == walk[l] && walk[l] in walk[1..];
    if i == 0 {
      assert forall j :: 0 < j < |live| ==> live[j] == rest[j - 1];
      assert k == 0;
      var m :| 0 <= m < |rest| && rest[m] == walk[l];
      assert live[m + 1] == walk[l];
    } else {
      var d := if Live(s, U(walk[0])) then 1 else 0;
      assert walk[0] != live[k];
      assert live[k] == rest[k - d];
      assert walk[1..][i - 1] == rest[k - d];
      LiveUnitsInOrder(s, walk[1..], k - d, l - 1);
      var m :| k - d < m < |rest| && rest[m] == walk[1..][l - 1];
      assert live[m + d] == walk[l];
    }
  }

  /**
    What a caller gathers for the live units `live`: their live collections with
    children before parents, the live items of those, and nothing twice.
   */
  ghost predicate Gathered(s: State, items: seq<int>, collections: seq<int>, live: seq<int>) {
    && NoRepeats(items) && NoRepeats(collections)
    && (forall k :: 0 <= k < |items| ==> Live(s, I(items[k])))
    && (forall k :: 0 <= k < |collections| ==> Live(s, C(collections[k])))
    && (forall i, k {:trigger Under(s, I(i), C(collections[k]))} ::
          0 <= k < |collections| && Live(s, I(i)) && Under(s, I(i), C(collections[k])) ==> i in items)
    && (forall d, k {:trigger Under(s, C(d), C(collections[k]))} ::
          0 <= k < |collections| && Live(s, C(d)) && Under(s, C(d), C(collections[k])) ==> d in collections[..k])
    && (forall c, k {:trigger Under(s, C(c), U(live[k]))} ::
          0 <= k < |live| && Live(s, C(c)) && Under(s, C(c), U(live[k])) ==> c in collections)
  }

  lemma PlanIndex(items: seq<int>, collections: seq<int>, walk: seq<int>, k: nat)
    requires k < |Plan(items, collections, walk)|
    ensures |Plan(items, collections, walk)| == |items| + |collections| + |walk|
    ensures Plan(items, collections, walk)[k] ==
            if k < |items| then I(items[k])
            else if k < |items| + |collections| then C(collections[k - |items|])
            else U(walk[|walk| - 1 - (k - |items| - |collections|)])
  {}

  /** The plan for what is live in the subtree of a unit. */
  ghost function SubtreePlan(s: State, u: int, items: seq<int>, collections: seq<int>): seq<Entity>
    requires IsForest(UnitParents(s)) && u in s.units
  {
    Plan(items, collections, LiveUnits(s, Preorder(UnitParents(s), u)))
  }

  /** It is leaf-first, so it can be buried and brought back whole. */
  lemma SubtreePlanIsLeafFirst(s: State, u: int, items: seq<int>, collections: seq<int>)
    requires IsForest(UnitParents(s)) && u in s.units
    requires Gathered(s, items, collections, LiveUnits(s, Preorder(UnitParents(s), u)))
    ensures LeafFirst(s, SubtreePlan(s, u, items, collections))
  {
    var f := UnitParents(s);
    var live := LiveUnits(s, Preorder(f, u));
    var plan := Plan(items, collections, live);
    PreorderNoRepeats(f, u);
    LiveUnitsAre(s, Preorder(f, u));
    forall i, j | 0 <= i < j < |plan| ensures plan[i] != plan[j] {
      PlanIndex(items, collections, live, i);
      PlanIndex(items, collections, live, j);
    }
    forall k | 0 <= k < |plan| ensures Live(s, plan[k]) {
      PlanIndex(items, collections, live, k);
    }
    forall k, e | 0 <= k < |plan| && Live(s, e) && Under(s, e, plan[k]) ensures e in plan[..k] {
      PlanIndex(items, collections, live, k);
      match plan[k]
      case I(_) =>
      case C(c) => ItemOrChildBefore(s, items, collections, live, k, e);
      case U(v) =>
        match e {
          case C(c) => CollectionBefore(s, items, collections, live, k, c);
          case U(w) => ChildUnitBefore(s, f, u, items, collections, live, k, w);
          case I(_) =>
        }
    }
  }

  lemma ItemOrChildBefore(s: State, items: seq<int>, collections: seq<int>, walk: seq<int>, k: nat, e: Entity)
    requires Gathered(s, items, collections, walk) && |items| <= k < |items| + |collections|
    requires Live(s, e) && Under(s, e, C(collections[k - |items|]))
    ensures e in Plan(items, collections, walk)[..k]
  {
    match e {
      case I(i) =>
        var m :| 0 <= m < |items| && items[m] == i;
        PlanIndex(items, collections, walk, m);
      case C(d) =>
        var m :| 0 <= m < k - |items| && collections[..k - |items|][m] == d;
        PlanIndex(items, collections, walk, |items| + m);
      case U(_) =>
    }
  }

  lemma CollectionBefore(s: State, items: seq<int>, collections: seq<int>, walk: seq<int>, k: nat, c: int)
    requires Gathered(s, items, collections, walk) && |items| + |collections| <= k < |items| + |collections| + |walk|
    requires Live(s, C(c)) && Under(s, C(c), U(walk[|walk| - 1 - (k - |items| - |collections|)]))
    ensures C(c) in Plan(items, collections, walk)[..k]
  {
    var m :| 0 <= m < |collections| && collections[m] == c;
    PlanIndex(items, collections, walk, |items| + m);
  }

  lemma ChildUnitBefore(s: State, f: Parents, u: int, items: seq<int>, collections: seq<int>, live: seq<int>,
                        k: nat, w: int)
    requires f == UnitParents(s) && IsForest(f) && u in f && live == LiveUnits(s, Preorder(f, u))
    requires |items| + |collections| <= k < |items| + |collections| + |live|
    requires Live(s, U(w)) && Under(s, U(w), U(live[|live| - 1 - (k - |items| - |collections|)]))
    ensures U(w) in Plan(items, collections, live)[..k]
  {
    var place := |live| - 1 - (k - |items| - |collections|);
    var m := LiveChildLater(s, f, u, place, w);
    UnitBefore(items, collections, live, k, m);
  }

  lemma LiveChildLater(s: State, f: Parents, u: int, place: nat, w: int) returns (m: nat)
    requires IsForest(f) && u in f && place < |LiveUnits(s, Preorder(f, u))|
    requires w in f && Live(s, U(w)) && f[w] == Some(LiveUnits(s, Preorder(f, u))[place])
    ensures place < m < |LiveUnits(s, Preorder(f, u))| && LiveUnits(s, Preorder(f, u))[m] == w
  {
    var walk := Preorder(f, u);
    var live := LiveUnits(s, walk);
    LiveUnitsAre(s, walk);
    assert live[place] in walk;
    var i :| 0 <= i < |walk| && walk[i] == live[place];
    var j := ChildLater(f, u, i, w);
    PreorderNoRepeats(f, u);
    LiveUnitsInOrder(s, walk, place, j);
    m :| place < m < |live| && live[m] == w;
  }

  lemma UnitBefore(items: seq<int>, collections: seq<int>, walk: seq<int>, k: nat, j: nat)
    requires |items| + |collections| <= k < |items| + |collections| + |walk|
    requires |walk| - 1 - (k - |items| - |collections|) < j < |walk|
    ensures U(walk[j]) in Plan(items, collections, walk)[..k]
  {
    PlanOfUnit(items, collections, walk, j);
  }

  lemma ChildLater(f: Parents, u: int, i: nat, w: int) returns (j: nat)
    requires IsForest(f) && u in f && i < |Preorder(f, u)| && w in f && f[w] == Some(Preorder(f, u)[i])
    ensures i < j < |Preorder(f, u)| && Preorder(f, u)[j] == w
  {
    j := ChildInWalk(f, u, i, w);
    ParentEarlier(f, u, i, j);
  }

  lemma ChildInWalk(f: Parents, u: int, i: nat, w: int) returns (j: nat)
    requires IsForest(f) && u in f && i < |Preorder(f, u)| && w in f && f[w] == Some(Preorder(f, u)[i])
    ensures 0 < j < |Preorder(f, u)| && Preorder(f, u)[j] == w
  {
    var walk := Preorder(f, u);
    WalkRow(f, u, i);
    assert Reaches(f, u, walk[i]);
    ReachesExtends(f, u, walk[i], w);
    if w == u { ParentNotBelow(f, u); }
    PreorderIsSubtree(f, u);
    assert w in Descendants(f, u);
    var k :| 0 <= k < |walk[1..]| && walk[1..][k] == w;
    j := k + 1;
  }

  /** Each listed item has a live collection, and each listed collection a live unit, listed or not. */
  ghost predicate HaveOwners(s: State, items: seq<int>, collections: seq<int>) {
    && (forall k :: 0 <= k < |items| ==> OwnedOne(s, I(items[k])))
    && (forall k :: 0 <= k < |collections| ==> OwnedOne(s, C(collections[k])))
  }

  /**
    What is live in a unit's subtree, buried by its plan, passes every guard.
    Brought back in reverse it passes them exactly when all of it had live
    owners, and is restored; what was buried before stays so.
   */
  lemma SubtreeBurialRoundTrip(s: State, u: int, items: seq<int>, collections: seq<int>)
    requires IsForest(UnitParents(s)) && u in s.units
    requires Gathered(s, items, collections, LiveUnits(s, Preorder(UnitParents(s), u)))
    ensures var plan := SubtreePlan(s, u, items, collections);
            var down := BuryAll(s, plan);
            && down.ok && (forall v :: v in Preorder(UnitParents(s), u) ==> !Live(down.state, U(v)))
            && (ExhumeAll(down.state, plan).ok <==> HaveOwners(s, items, collections))
            && (HaveOwners(s, items, collections) ==> Back(s, ExhumeAll(down.state, plan).state))
  {
    var walk := Preorder(UnitParents(s), u);
    var live := LiveUnits(s, walk);
    var plan := SubtreePlan(s, u, items, collections);
    SubtreePlanIsLeafFirst(s, u, items, collections);
    PlanIsOwnedIff(s, items, collections, live);
    SubtreeRoundTrip(s, plan);
    LiveUnitsAre(s, walk);
    UnitsInPlan(items, collections, live);
    var down := BuryAll(s, plan).state;
    forall v | v in walk ensures !Live(down, U(v)) {
      if Live(s, U(v)) {
        assert v in live;
      } else {
        BuriedStays(s, plan, U(v));
      }
    }
    if HaveOwners(s, items, collections) { StillBuried(s, ExhumeAll(down, plan).state); }
  }

  /** Everything is as it was, and nothing else came back. */
  ghost predicate Back(s: State, t: State) {
    Restored(s, t) && forall e :: !Live(s, e) ==> !Live(t, e)
  }

  lemma BuriedStays(s: State, plan: seq<Entity>, e: Entity)
    requires LeafFirst(s, plan) && !Live(s, e)
    ensures !Live(BuryAll(s, plan).state, e)
  {}

  lemma StillBuried(s: State, t: State)
    requires Restored(s, t)
    ensures forall e :: !Live(s, e) ==> !Live(t, e)
  {}

  lemma UnitsInPlan(items: seq<int>, collections: seq<int>, walk: seq<int>)
    ensures forall v :: v in walk ==>
              exists k :: 0 <= k < |Plan(items, collections, walk)| && Plan(items, collections, walk)[k] == U(v)
  {
    forall v | v in walk
      ensures exists k :: 0 <= k < |Plan(items, collections, walk)| && Plan(items, collections, walk)[k] == U(v)
    {
      var j :| 0 <= j < |walk| && walk[j] == v;
      PlanOfUnit(items, collections, walk, j);
    }
  }

  lemma PlanOfUnit(items: seq<int>, collections: seq<int>, walk: seq<int>, j: nat)
    requires j < |walk|
    ensures var m := |items| + |collections| + (|walk| - 1 - j);
            m < |Plan(items, collections, walk)| && Plan(items, collections, walk)[m] == U(walk[j])
  {}

  lemma PlanIsOwnedIff(s: State, items: seq<int>, collections: seq<int>, walk: seq<int>)
    ensures Owned(s, Plan(items, collections, walk)) <==> HaveOwners(s, items, collections)
  {
    var plan := Plan(items, collections, walk);
    if Owned(s, plan) {
      forall k | 0 <= k < |items| ensures OwnedOne(s, I(items[k])) { assert OwnedOne(s, plan[k]); }
      forall k | 0 <= k < |collections| ensures OwnedOne(s, C(collections[k])) {
        assert OwnedOne(s, plan[|items| + k]);
      }
    }
  }

  // ----- such a plan exists -----

  ghost function CollectionParents(s: State): Parents {
    map c | c in s.collections :: s.collections[c].parent
  }

  /** Live collections, each the parent of the next, from one of a unit of `live` down to `c`. */
  ghost predicate LeadsTo(s: State, live: seq<int>, p: seq<int>, c: int) {
    && IsPath(CollectionParents(s), p) && p[|p| - 1] == c
    && (forall k :: 0 <= k < |p| ==> Live(s, C(p[k])))
    && exists v :: v in live && v in s.collections[p[0]].units
  }

  ghost predicate Below(s: State, live: seq<int>, c: int) {
    exists p :: LeadsTo(s, live, p, c)
  }

  /** The live collections of the units, and the live collections below them. */
  ghost function CollectionsBelow(s: State, live: seq<int>): set<int> {
    set c | c in s.collections && Below(s, live, c)
  }

  ghost function ItemsBelow(s: State, live: seq<int>): set<int> {
    set i | i in s.items && Live(s, I(i)) && s.items[i].collections * CollectionsBelow(s, live) != {}
  }

  lemma BelowUnit(s: State, live: seq<int>, c: int, v: int)
    requires v in live && Live(s, C(c)) && Under(s, C(c), U(v))
    ensures Below(s, live, c)
  {
    assert LeadsTo(s, live, [c], c);
  }

  lemma BelowCollection(s: State, live: seq<int>, c: int, d: int)
    requires Below(s, live, c) && Live(s, C(d)) && Under(s, C(d), C(c))
    ensures Below(s, live, d)
  {
    var p :| LeadsTo(s, live, p, c);
    assert LeadsTo(s, live, p + [d], d);
  }

  /** They are the live collections that are in one of the units or have one of them as their parent. */
  lemma CollectionsBelowIff(s: State, live: seq<int>, c: int)
    requires Live(s, C(c))
    ensures c in CollectionsBelow(s, live) <==>
            || (exists v :: v in live && v in s.collections[c].units)
            || (s.collections[c].parent.Some? && s.collections[c].parent.value in CollectionsBelow(s, live))
  {
    if v :| v in live && v in s.collections[c].units { BelowUnit(s, live, c, v); }
    if s.collections[c].parent.Some? && s.collections[c].parent.value in CollectionsBelow(s, live) {
      BelowCollection(s, live, s.collections[c].parent.value, c);
    }
    if p :| LeadsTo(s, live, p, c) {
      if |p| > 1 {
        assert LeadsTo(s, live, p[..|p| - 1], p[|p| - 2]);
        assert CollectionParents(s)[p[|p| - 1]] == Some(p[|p| - 2]);
      }
    }
  }

  ghost predicate Lowest(height: map<int, int>, cs: set<int>, c: int)
    requires cs <= height.Keys
  {
    c in cs && forall d :: d in cs ==> height[c] <= height[d]
  }

  lemma {:induction false} SomeLowest(height: map<int, int>, cs: set<int>) returns (c: int)
    requires cs <= height.Keys && cs != {}
    ensures Lowest(height, cs, c)
    decreases cs
  {
    c := Pick(cs);
    if cs != {c} {
      var rest := cs - {c};
      var d := SomeLowest(height, rest);
      assert forall e :: e in cs ==> e == c || e in rest;
      if height[d] < height[c] { c := d; }
    }
  }

  ghost predicate Rising(height: map<int, int>, cs: seq<int>) {
    forall j, k :: 0 <= j < k < |cs| ==> cs[j] in height && cs[k] in height && height[cs[j]] <= height[cs[k]]
  }

  /** Sorted by height. */
  lemma {:induction false} ByHeight(height: map<int, int>, cs: set<int>) returns (r: seq<int>)
    requires cs <= height.Keys
    ensures NoRepeats(r) && Rising(height, r) && forall c :: c in r <==> c in cs
    decreases cs
  {
    if cs == {} {
      r := [];
    } else {
      var c := SomeLowest(height, cs);
      var rest := ByHeight(height, cs - {c});
      r := [c] + rest;
      assert forall d :: d in r <==> d == c || d in rest;
      forall j, k | 0 <= j < k < |r|
        ensures r[j] != r[k] && r[j] in height && r[k] in height && height[r[j]] <= height[r[k]]
      {
        assert r[k] == rest[k - 1] && rest[k - 1] in rest;
        if j > 0 { assert r[j] == rest[j - 1]; }
      }
    }
  }

  /** Children have a lower height than their parents, so that they come first. */
  lemma ChildEarlier(s: State, r: Rank, collections: seq<int>, d: int, k: nat)
    requires Ranks(CollectionParents(s), r) && Rising(r.height, collections) && d in collections
    requires k < |collections| && Under(s, C(d), C(collections[k]))
    ensures d in collections[..k]
  {}

  /** Without a cycle among collections, what is live below the units can be gathered. */
  lemma GatheredExists(s: State, live: seq<int>) returns (items: seq<int>, collections: seq<int>)
    requires IsForest(CollectionParents(s))
    ensures Gathered(s, items, collections, live)
    ensures forall c :: c in collections <==> c in CollectionsBelow(s, live)
    ensures forall i :: i in items <==> i in ItemsBelow(s, live)
  {
    var r := RankOf(CollectionParents(s));
    collections := ByHeight(r.height, CollectionsBelow(s, live));
    items := SortIds(ItemsBelow(s, live));
    forall k | 0 <= k < |collections| ensures Live(s, C(collections[k])) && Below(s, live, collections[k]) {
      assert collections[k] in collections;
    }
    forall d, k | 0 <= k < |collections| && Live(s, C(d)) && Under(s, C(d), C(collections[k]))
      ensures d in collections[..k]
    {
      BelowCollection(s, live, collections[k], d);
      ChildEarlier(s, r, collections, d, k);
    }
    forall c, k | 0 <= k < |live| && Live(s, C(c)) && Under(s, C(c), U(live[k])) ensures c in collections {
      BelowUnit(s, live, c, live[k]);
    }
    forall i, k | 0 <= k < |collections| && Live(s, I(i)) && Under(s, I(i), C(collections[k])) ensures i in items {
      assert collections[k] in s.items[i].collections * CollectionsBelow(s, live);
    }
  }

  /** The subtree of a unit is brought back whole exactly when every collection in it has a live unit. */
  lemma SubtreeComesBackIff(s: State, u: int) returns (items: seq<int>, collections: seq<int>)
    requires IsForest(UnitParents(s)) && IsForest(CollectionParents(s)) && u in s.units
    ensures var live := LiveUnits(s, Preorder(UnitParents(s), u));
            && Gathered(s, items, collections, live)
            && var plan := SubtreePlan(s, u, items, collections);
            && BuryAll(s, plan).ok
            && (ExhumeAll(BuryAll(s, plan).state, plan).ok <==>
                forall c :: c in CollectionsBelow(s, live) ==> HasLiveUnit(s, c))
            && (ExhumeAll(BuryAll(s, plan).state, plan).ok ==> Back(s, ExhumeAll(BuryAll(s, plan).state, plan).state))
    ensures var plan := SubtreePlan(s, u, items, collections);
            var back := ExhumeAll(BuryAll(s, plan).state, plan);
            && (forall v :: v in Preorder(UnitParents(s), u) ==> !Live(BuryAll(s, plan).state, U(v)))
            && (back.ok ==> forall e :: Live(back.state, e) <==> Live(s, e))
  {
    var live := LiveUnits(s, Preorder(UnitParents(s), u));
    items, collections := GatheredExists(s, live);
    SubtreeBurialRoundTrip(s, u, items, collections);
    forall k | 0 <= k < |items| ensures OwnedOne(s, I(items[k])) {
      assert items[k] in items;
      var c :| c in s.items[items[k]].collections * CollectionsBelow(s, live);
    }
    if HaveOwners(s, items, collections) {
      forall c | c in CollectionsBelow(s, live) ensures HasLiveUnit(s, c) {
        var k :| 0 <= k < |collections| && collections[k] == c;
        assert OwnedOne(s, C(collections[k]));
      }
    } else {
      var k :| 0 <= k < |collections| && !OwnedOne(s, C(collections[k]));
      assert collections[k] in collections;
    }
  }

  /** A live collection without a unit, under a collection of unit 9. */
  function Orphaned(): State {
    State(map[], map[1 := Collection(false, None, {9}), 2 := Collection(false, Some(1), {})],
          map[9 := Burial.Unit(false, None)])
  }

  lemma OrphansAreForests()
    ensures IsForest(UnitParents(Orphaned())) && IsForest(CollectionParents(Orphaned()))
  {
    RankedIsForest(UnitParents(Orphaned()), Rank(map[9 := 0], 0));
    RankedIsForest(CollectionParents(Orphaned()), Rank(map[1 := 1, 2 := 0], 1));
  }

  lemma OrphanIsBelow()
    ensures IsForest(UnitParents(Orphaned()))
    ensures 2 in CollectionsBelow(Orphaned(), LiveUnits(Orphaned(), Preorder(UnitParents(Orphaned()), 9)))
    ensures !HasLiveUnit(Orphaned(), 2)
  {
    var s := Orphaned();
    OrphansAreForests();
    var walk := Preorder(UnitParents(s), 9);
    PreorderIsSubtree(UnitParents(s), 9);
    assert walk[0] in walk;
    LiveUnitsAre(s, walk);
    BelowUnit(s, LiveUnits(s, walk), 1, 9);
    BelowCollection(s, LiveUnits(s, walk), 1, 2);
  }

  /** The unit is buried with all that is below it, and does not come back whole. */
  lemma OrphanStaysBuried() returns (items: seq<int>, collections: seq<int>)
    ensures IsForest(UnitParents(Orphaned())) && IsForest(CollectionParents(Orphaned()))
    ensures var s := Orphaned();
            && Gathered(s, items, collections, LiveUnits(s, Preorder(UnitParents(s), 9)))
            && var plan := SubtreePlan(s, 9, items, collections);
            && BuryAll(s, plan).ok && !ExhumeAll(BuryAll(s, plan).state, plan).ok
  {
    OrphansAreForests();
    items, collections := SubtreeComesBackIff(Orphaned(), 9);
    OrphanIsBelow();
  }
}
