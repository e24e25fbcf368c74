/**
  The `parent_id` column of units (and of collections): what makes it a forest,
  which updates keep it one, and the two walks over it.
 */
module Forest {
  import opened Lexicographic
  import opened Sets
  import opened Wrappers

  type Parents = map<int, Option<int>>

  ghost predicate NoDangling(f: Parents) {
    forall u :: u in f && f[u].Some? ==> f[u].value in f
  }

  /** `p` runs downwards: each entry is the parent of the next. */
  ghost predicate IsPath(f: Parents, p: seq<int>) {
    && p != []
    && (forall i :: 0 <= i < |p| ==> p[i] in f)
    && (forall i :: 0 < i < |p| ==> f[p[i]] == Some(p[i - 1]))
  }

  ghost predicate Acyclic(f: Parents) {
    forall p :: IsPath(f, p) && |p| > 1 ==> p[0] != p[|p| - 1]
  }

  ghost predicate IsForest(f: Parents) {
    NoDangling(f) && Acyclic(f)
  }

  ghost predicate PathBetween(f: Parents, p: seq<int>, a: int, u: int) {
    IsPath(f, p) && p[0] == a && p[|p| - 1] == u
  }

  ghost predicate Reaches(f: Parents, a: int, u: int) {
    exists p :: PathBetween(f, p, a, u)
  }

  // ----- a measure for both directions -----

  datatype Rank = Rank(height: map<int, int>, bound: int)

  ghost predicate Ranks(f: Parents, r: Rank) {
    && r.height.Keys == f.Keys && 0 <= r.bound
    && (forall u :: u in f ==> 0 <= r.height[u] <= r.bound)
    && (forall u :: u in f && f[u].Some? ==> f[u].value in f && r.height[u] < r.height[f[u].value])
  }

  lemma {:induction false} HeightFalls(f: Parents, r: Rank, p: seq<int>)
    requires Ranks(f, r) && IsPath(f, p)
    ensures r.height[p[|p| - 1]] + |p| - 1 <= r.height[p[0]]
    decreases |p|
  {
    if |p| > 1 {
      var u, q := p[|p| - 1], p[..|p| - 1];
      HeightFalls(f, r, q);
      assert u in f && f[u] == Some(q[|q| - 1]) && q[0] == p[0];
    }
  }

  lemma RankedIsForest(f: Parents, r: Rank)
    requires Ranks(f, r)
    ensures IsForest(f)
  {
    forall p | IsPath(f, p) && |p| > 1 ensures p[0] != p[|p| - 1] {
      HeightFalls(f, r, p);
    }
  }

  lemma PathNoRepeats(f: Parents, p: seq<int>)
    requires Acyclic(f) && IsPath(f, p)
    ensures NoRepeats(p)
  {
    forall i, j | 0 <= i < j < |p| ensures p[i] != p[j] {
      var q := p[i..j + 1];
      assert IsPath(f, q) && q[0] == p[i] && q[|q| - 1] == p[j];
    }
  }

  /** At most `n` steps upwards from `u`, written downwards. */
  ghost function Climb(f: Parents, u: int, n: nat): (p: seq<int>)
    requires NoDangling(f) && u in f
    ensures IsPath(f, p) && p[|p| - 1] == u
    decreases n
  {
    if n == 0 || f[u].None? then [u] else Climb(f, f[u].value, n - 1) + [u]
  }

  lemma {:induction false} ClimbStable(f: Parents, u: int, n: nat)
    requires NoDangling(f) && u in f && |Climb(f, u, n)| <= n
    ensures Climb(f, u, n + 1) == Climb(f, u, n)
    decreases n
  {
    if n != 0 && f[u].Some? { ClimbStable(f, f[u].value, n - 1); }
  }

  lemma ForestIsRanked(f: Parents) returns (r: Rank)
    requires IsForest(f)
    ensures Ranks(f, r)
  {
    var n := |f|;
    r := Rank(map u | u in f :: n - |Climb(f, u, n)|, n);
    forall u | u in f ensures |Climb(f, u, n)| <= n {
      var p := Climb(f, u, n);
      PathNoRepeats(f, p);
      if |p| > n { Pigeonhole(p, f.Keys); }
    }
    forall u | u in f && f[u].Some? ensures r.height[u] < r.height[f[u].value] {
      var a := f[u].value;
      assert n > 0;
      assert Climb(f, u, n) == Climb(f, a, n - 1) + [u];
      ClimbStable(f, a, n - 1);
    }
  }

  ghost function RankOf(f: Parents): (r: Rank)
    requires IsForest(f)
    ensures Ranks(f, r)
  {
    assert exists r :: Ranks(f, r) by { var r := ForestIsRanked(f); }
    var r :| Ranks(f, r); r
  }

  // ----- what create, update and destroy do to the column -----

  lemma AddKeepsForest(f: Parents, u: int, parent: Option<int>)
    requires IsForest(f) && u !in f && (parent.Some? ==> parent.value in f)
    ensures IsForest(f[u := parent])
  {
    var r, g := RankOf(f), f[u := parent];
    RankedIsForest(g, Rank(map w | w in g :: if w == u then 0 else r.height[w] + 1, r.bound + 1));
  }

  lemma ReachesExtends(f: Parents, a: int, u: int, c: int)
    requires Reaches(f, a, u) && c in f && f[c] == Some(u)
    ensures Reaches(f, a, c)
  {
    var p :| PathBetween(f, p, a, u);
    assert PathBetween(f, p + [c], a, c);
  }

  lemma ReachesSelf(f: Parents, u: int)
    requires u in f
    ensures Reaches(f, u, u)
  {
    assert PathBetween(f, [u], u, u);
  }

  /** The last step of a path that is not a single unit. */
  lemma ReachesParent(f: Parents, a: int, u: int)
    requires Reaches(f, a, u) && a != u
    ensures u in f && f[u].Some? && Reaches(f, a, f[u].value)
  {
    var p :| PathBetween(f, p, a, u);
    assert PathBetween(f, p[..|p| - 1], a, p[|p| - 2]);
  }

  lemma ReparentKeepsForest(f: Parents, u: int, parent: Option<int>)
    requires IsForest(f) && u in f
    requires parent.Some? ==> parent.value in f && !Reaches(f, u, parent.value)
    ensures IsForest(f[u := parent])
  {
    var r, g := RankOf(f), f[u := parent];
    var lift := r.height[u] + 1;
    var height := map w | w in g :: if Reaches(f, u, w) then r.height[w] else r.height[w] + lift;
    forall w | w in g && g[w].Some? ensures g[w].value in g && height[w] < height[g[w].value] {
      if w == u {
        ReachesSelf(f, u);
      } else {
        var a := f[w].value;
        if Reaches(f, u, a) { ReachesExtends(f, u, a, w); }
        if Reaches(f, u, w) { ReachesParent(f, u, w); }
      }
    }
    assert forall w :: w in g ==> 0 <= height[w] <= r.bound + lift;
    RankedIsForest(g, Rank(height, r.bound + lift));
  }

  lemma ReparentBelowMakesCycle(f: Parents, u: int, a: int)
    requires IsForest(f) && u in f && Reaches(f, u, a)
    ensures !Acyclic(f[u := Some(a)])
  {
    var p :| PathBetween(f, p, u, a);
    PathNoRepeats(f, p);
    var g, q := f[u := Some(a)], p + [u];
    forall i | 0 < i < |q| ensures g[q[i]] == Some(q[i - 1]) {
      if i < |p| { assert p[i] != p[0]; }
    }
    assert IsPath(g, q) && q[0] == q[|q| - 1];
  }

  /** The check made before a parent is saved is exactly what keeps the column a forest. */
  lemma ReparentIff(f: Parents, u: int, a: int)
    requires IsForest(f) && u in f
    ensures IsForest(f[u := Some(a)]) <==> a in f && a != u && !(a in Descendants(f, u))
  {
    ReachesSelf(f, u);
    var g := f[u := Some(a)];
    assert g[u] == Some(a);
    if a in f {
      if Reaches(f, u, a) {
        ReparentBelowMakesCycle(f, u, a);
      } else {
        ReparentKeepsForest(f, u, Some(a));
      }
    }
  }

  // ----- ancestors and descendants -----

  /** Parents from closest to farthest. */
  ghost function Ancestors(f: Parents, u: int): seq<int>
    requires IsForest(f) && u in f
    decreases RankOf(f).bound - RankOf(f).height[u]
  {
    if f[u].None? then [] else [f[u].value] + Ancestors(f, f[u].value)
  }

  /** The first is the parent of `u`, each other one the parent of the one before it, and the last has none. */
  ghost predicate ClimbsFrom(f: Parents, u: int, above: seq<int>) {
    && u in f && (forall i :: 0 <= i < |above| ==> above[i] in f)
    && (if above == [] then f[u].None? else f[u] == Some(above[0]) && f[above[|above| - 1]].None?)
    && (forall i :: 0 < i < |above| ==> f[above[i - 1]] == Some(above[i]))
  }

  lemma {:induction false} AncestorsClimb(f: Parents, u: int)
    requires IsForest(f) && u in f
    ensures ClimbsFrom(f, u, Ancestors(f, u))
    decreases RankOf(f).bound - RankOf(f).height[u]
  {
    if f[u].Some? {
      var above, rest := Ancestors(f, u), Ancestors(f, f[u].value);
      AncestorsClimb(f, f[u].value);
      assert forall i :: 0 < i < |above| ==> above[i] == rest[i - 1];
    }
  }

  /** Every unit below `u`, at any level. */
  ghost function Descendants(f: Parents, u: int): set<int> {
    set w | w in f && w != u && Reaches(f, u, w)
  }

  lemma ParentNotBelow(f: Parents, u: int)
    requires IsForest(f) && u in f && f[u].Some?
    ensures !Reaches(f, u, f[u].value)
  {
    forall p | PathBetween(f, p, u, f[u].value) ensures IsPath(f, p + [u]) {}
  }

  lemma {:induction false} AncestorIffReaches(f: Parents, a: int, u: int)
    requires IsForest(f) && u in f
    ensures a in Ancestors(f, u) <==> a != u && Reaches(f, a, u)
    decreases RankOf(f).bound - RankOf(f).height[u]
  {
    if f[u].Some? {
      var b := f[u].value;
      AncestorIffReaches(f, a, b);
      ReachesSelf(f, b);
      ParentNotBelow(f, u);
      if Reaches(f, a, b) { ReachesExtends(f, a, b, u); }
      if a != u && Reaches(f, a, u) { ReachesParent(f, a, u); }
    } else if a != u && Reaches(f, a, u) {
      ReachesParent(f, a, u);
    }
  }

  /** `v` is a descendant of `u` exactly when `u` is an ancestor of `v`. */
  lemma DescendantIffAncestor(f: Parents, u: int, v: int)
    requires IsForest(f) && v in f
    ensures v in Descendants(f, u) <==> u in Ancestors(f, v)
  {
    AncestorIffReaches(f, u, v);
  }

  // ----- the preorder walk -----

  ghost function Children(f: Parents, u: int): set<int> {
    set c | c in f && f[c] == Some(u)
  }

  ghost predicate Increasing(s: seq<int>) {
    forall i, j :: 0 <= i < j < |s| ==> s[i] < s[j]
  }

  ghost function Least(s: set<int>): (m: int)
    requires s != {}
    ensures m in s && forall x :: x in s ==> m <= x
  {
    var x := Pick(s);
    if s == {x} then x else
    var rest := s - {x};
    assert s == rest + {x};
    var y := Least(rest);
    if x <= y then x else y
  }

  ghost function SortIds(s: set<int>): (r: seq<int>)
    ensures Increasing(r)
    ensures forall x :: x in r <==> x in s
    ensures forall i :: 0 <= i < |r| ==> r[i] in s
  {
    if s == {} then [] else [Least(s)] + SortIds(s - {Least(s)})
  }

  ghost predicate AreChildren(f: Parents, u: int, cs: seq<int>) {
    forall i :: 0 <= i < |cs| ==> cs[i] in f && f[cs[i]] == Some(u)
  }

  /** The children of a unit, in ID order. */
  ghost function ChildIds(f: Parents, u: int): (cs: seq<int>)
    ensures AreChildren(f, u, cs) && Increasing(cs)
    ensures forall c :: c in f && f[c] == Some(u) ==> c in cs
  {
    var cs := SortIds(Children(f, u));
    assert forall i :: 0 <= i < |cs| ==> cs[i] in Children(f, u);
    assert forall c :: c in f && f[c] == Some(u) ==> c in Children(f, u);
    cs
  }

  /** A unit, then the walks of its children in ID order. */
  ghost function Preorder(f: Parents, u: int): seq<int>
    requires IsForest(f) && u in f
    decreases RankOf(f).height[u], 1, 0
  {
    [u] + PreorderOf(f, u, ChildIds(f, u))
  }

  ghost function PreorderOf(f: Parents, u: int, cs: seq<int>): seq<int>
    requires IsForest(f) && u in f && AreChildren(f, u, cs)
    decreases RankOf(f).height[u], 0, |cs|
  {
    if cs == [] then [] else Preorder(f, cs[0]) + PreorderOf(f, u, cs[1..])
  }

  /** The same walk, with the path from the starting unit kept for each row. */
  ghost function PathWalk(f: Parents, p: seq<int>): seq<Word>
    requires IsForest(f) && IsPath(f, p)
    decreases RankOf(f).height[p[|p| - 1]], 1, 0
  {
    [p] + PathWalkOf(f, p, ChildIds(f, p[|p| - 1]))
  }

  ghost function PathWalkOf(f: Parents, p: seq<int>, cs: seq<int>): seq<Word>
    requires IsForest(f) && IsPath(f, p) && AreChildren(f, p[|p| - 1], cs)
    decreases RankOf(f).height[p[|p| - 1]], 0, |cs|
  {
    if cs == [] then [] else PathWalk(f, p + [cs[0]]) + PathWalkOf(f, p, cs[1..])
  }

  /** The walk lists exactly the paths that continue `p`. */
  lemma {:induction false} PathWalkMembers(f: Parents, p: seq<int>, q: Word)
    requires IsForest(f) && IsPath(f, p)
    ensures q in PathWalk(f, p) <==> IsPath(f, q) && p <= q
    decreases RankOf(f).height[p[|p| - 1]], 1, 0
  {
    var cs := ChildIds(f, p[|p| - 1]);
    PathWalkOfMembers(f, p, cs, q);
    if IsPath(f, q) && p <= q && q != p {
      assert q[|p|] in cs;
    }
  }

  lemma {:induction false} PathWalkOfMembers(f: Parents, p: seq<int>, cs: seq<int>, q: Word)
    requires IsForest(f) && IsPath(f, p) && AreChildren(f, p[|p| - 1], cs)
    ensures q in PathWalkOf(f, p, cs) <==> IsPath(f, q) && p <= q && |p| < |q| && q[|p|] in cs
    decreases RankOf(f).height[p[|p| - 1]], 0, |cs|
  {
    if cs != [] {
      PathWalkMembers(f, p + [cs[0]], q);
      PathWalkOfMembers(f, p, cs[1..], q);
      assert p + [cs[0]] <= q <==> p <= q && |p| < |q| && q[|p|] == cs[0];
    }
  }

  /** The walk is in breadcrumb order. */
  lemma {:induction false} PathWalkAscending(f: Parents, p: seq<int>)
    requires IsForest(f) && IsPath(f, p)
    ensures Ascending(PathWalk(f, p))
    decreases RankOf(f).height[p[|p| - 1]], 1, 0
  {
    var cs := ChildIds(f, p[|p| - 1]);
    PathWalkOfAscending(f, p, cs);
    forall q | q in PathWalkOf(f, p, cs) ensures Less(p, q) {
      PathWalkOfMembers(f, p, cs, q);
      PrefixIsLess(p, q);
    }
    AscendingAppend([p], PathWalkOf(f, p, cs));
  }

  lemma PrefixIsLess(p: Word, q: Word)
    requires p <= q && |p| < |q|
    ensures Less(p, q)
  {}

  lemma {:induction false} PathWalkOfAscending(f: Parents, p: seq<int>, cs: seq<int>)
    requires IsForest(f) && IsPath(f, p) && AreChildren(f, p[|p| - 1], cs)
    requires Increasing(cs)
    ensures Ascending(PathWalkOf(f, p, cs))
    decreases RankOf(f).height[p[|p| - 1]], 0, |cs|
  {
    if cs != [] {
      PathWalkAscending(f, p + [cs[0]]);
      PathWalkOfAscending(f, p, cs[1..]);
      forall q, q' | q in PathWalk(f, p + [cs[0]]) && q' in PathWalkOf(f, p, cs[1..]) ensures Less(q, q') {
        EarlierChildFirst(f, p, cs, q, q');
      }
      AscendingAppend(PathWalk(f, p + [cs[0]]), PathWalkOf(f, p, cs[1..]));
    }
  }

  lemma EarlierChildFirst(f: Parents, p: seq<int>, cs: seq<int>, q: Word, q': Word)
    requires IsForest(f) && IsPath(f, p) && AreChildren(f, p[|p| - 1], cs) && Increasing(cs) && cs != []
    requires IsPath(f, p + [cs[0]])
    requires q in PathWalk(f, p + [cs[0]]) && q' in PathWalkOf(f, p, cs[1..])
    ensures Less(q, q')
  {
    PathWalkMembers(f, p + [cs[0]], q);
    PathWalkOfMembers(f, p, cs[1..], q');
    var k :| 0 <= k < |cs[1..]| && cs[1..][k] == q'[|p|];
    assert (p + [cs[0]])[|p|] == cs[0] && cs[0] < cs[k + 1];
    Diverge(p + [cs[0]], p, q, q');
  }

  lemma Diverge(pc: Word, p: Word, q: Word, q': Word)
    requires |pc| == |p| + 1 && p <= pc <= q && p <= q' && |p| < |q'| && pc[|p|] < q'[|p|]
    ensures Less(q, q')
  {
    SharedPrefix(p, q[|p|..], q'[|p|..]);
    assert p + q[|p|..] == q && p + q'[|p|..] == q';
  }

  lemma AscendingAppend(s: seq<Word>, t: seq<Word>)
    requires Ascending(s) && Ascending(t) && forall q, q' :: q in s && q' in t ==> Less(q, q')
    ensures Ascending(s + t)
  {}

  ghost function LastOf(p: Word): int {
    if p == [] then 0 else p[|p| - 1]
  }

  ghost function Ends(ps: seq<Word>): seq<int> {
    seq(|ps|, i requires 0 <= i < |ps| => LastOf(ps[i]))
  }

  lemma EndsAppend(ps: seq<Word>, qs: seq<Word>)
    ensures Ends(ps + qs) == Ends(ps) + Ends(qs)
  {}

  lemma {:induction false} WalkEnds(f: Parents, p: seq<int>)
    requires IsForest(f) && IsPath(f, p)
    ensures Ends(PathWalk(f, p)) == Preorder(f, p[|p| - 1])
    decreases RankOf(f).height[p[|p| - 1]], 1, 0
  {
    WalkOfEnds(f, p, ChildIds(f, p[|p| - 1]));
    EndsAppend([p], PathWalkOf(f, p, ChildIds(f, p[|p| - 1])));
  }

  lemma {:induction false} WalkOfEnds(f: Parents, p: seq<int>, cs: seq<int>)
    requires IsForest(f) && IsPath(f, p) && AreChildren(f, p[|p| - 1], cs)
    ensures Ends(PathWalkOf(f, p, cs)) == PreorderOf(f, p[|p| - 1], cs)
    decreases RankOf(f).height[p[|p| - 1]], 0, |cs|
  {
    if cs != [] {
      WalkEnds(f, p + [cs[0]]);
      WalkOfEnds(f, p, cs[1..]);
      EndsAppend(PathWalk(f, p + [cs[0]]), PathWalkOf(f, p, cs[1..]));
    }
  }

  /** Each row of the walk is the path to the unit it ends in. */
  lemma WalkRow(f: Parents, u: int, i: nat)
    requires IsForest(f) && u in f && i < |Preorder(f, u)|
    ensures |PathWalk(f, [u])| == |Preorder(f, u)|
    ensures PathBetween(f, PathWalk(f, [u])[i], u, Preorder(f, u)[i])
  {
    var ps := PathWalk(f, [u]);
    WalkEnds(f, [u]);
    assert ps[i] in ps;
    PathWalkMembers(f, [u], ps[i]);
  }

  lemma PreorderNoRepeats(f: Parents, u: int)
    requires IsForest(f) && u in f
    ensures NoRepeats(Preorder(f, u))
  {
    var ps, ids := PathWalk(f, [u]), Preorder(f, u);
    PathWalkAscending(f, [u]);
    forall i, j | 0 <= i < j < |ids| ensures ids[i] != ids[j] {
      WalkRow(f, u, i);
      WalkRow(f, u, j);
      assert Less(ps[i], ps[j]);
      Irreflexive(ps[i]);
      if ids[i] == ids[j] { PathUnique(f, ps[i], ps[j]); }
    }
  }

  /** The walk visits the unit and each descendant, once each. */
  lemma PreorderIsSubtree(f: Parents, u: int)
    requires IsForest(f) && u in f
    ensures NoRepeats(Preorder(f, u)) && Preorder(f, u)[0] == u
    ensures forall w :: w in Preorder(f, u)[1..] <==> w in Descendants(f, u)
  {
    PreorderNoRepeats(f, u);
    var ps, ids := PathWalk(f, [u]), Preorder(f, u);
    forall w | w in ids[1..] ensures w in Descendants(f, u) {
      var i :| 0 <= i < |ids[1..]| && ids[1..][i] == w;
      WalkRow(f, u, i + 1);
      assert ids[i + 1] == w && ids[0] != ids[i + 1];
    }
    forall w | w in Descendants(f, u) ensures w in ids[1..] {
      var p :| PathBetween(f, p, u, w);
      PathWalkMembers(f, [u], p);
      WalkEnds(f, [u]);
      var i :| 0 <= i < |ps| && ps[i] == p;
      assert ids[i] == w && i != 0;
      assert ids[1..][i - 1] == w;
    }
  }

  /** Of two units in the walk, the earlier one has the smaller path from the root. */
  lemma PreorderIsByPath(f: Parents, u: int, i: nat, j: nat)
    requires IsForest(f) && u in f && i < j < |Preorder(f, u)|
    ensures exists p, q :: PathBetween(f, p, u, Preorder(f, u)[i]) && PathBetween(f, q, u, Preorder(f, u)[j])
                           && Less(p, q)
  {
    var ps, ids := PathWalk(f, [u]), Preorder(f, u);
    WalkRow(f, u, i);
    WalkRow(f, u, j);
    PathWalkAscending(f, [u]);
    assert PathBetween(f, ps[i], u, ids[i]) && PathBetween(f, ps[j], u, ids[j]) && Less(ps[i], ps[j]);
  }

  /** Two downward paths with the same ends are the same path. */
  lemma {:induction false} PathUnique(f: Parents, p: seq<int>, q: seq<int>)
    requires IsForest(f) && IsPath(f, p) && IsPath(f, q)
    requires p[0] == q[0] && p[|p| - 1] == q[|q| - 1]
    ensures p == q
    decreases |p|
  {
    if |p| > 1 && |q| > 1 {
      PathUnique(f, p[..|p| - 1], q[..|q| - 1]);
      assert p == p[..|p| - 1] + [p[|p| - 1]] && q == q[..|q| - 1] + [q[|q| - 1]];
    } else {
      PathNoRepeats(f, p);
      PathNoRepeats(f, q);
    }
  }

  // ----- runs -----

  datatype Op =
    | Create(u: int, parent: Option<int>)
    | SetParent(u: int, parent: Option<int>)
    | Destroy(u: int, hasCollections: bool)

  /** Whether the validations and the foreign key let the operation through. */
  ghost predicate Accepts(f: Parents, op: Op) {
    match op
    case Create(u, parent) => u !in f && (parent.Some? ==> parent.value in f)
    case SetParent(u, parent) =>
      u in f && (parent.Some? ==> parent.value in f && parent.value != u && parent.value !in Descendants(f, u))
    case Destroy(u, hasCollections) => u in f && Children(f, u) == {} && !hasCollections
  }

  ghost function Step(f: Parents, op: Op): Parents {
    if !Accepts(f, op) then f else
    match op
    case Create(u, parent) => f[u := parent]
    case SetParent(u, parent) => f[u := parent]
    case Destroy(u, _) => f - {u}
  }

  lemma StepKeepsForest(f: Parents, op: Op)
    requires IsForest(f)
    ensures IsForest(Step(f, op))
  {
    if Accepts(f, op) {
      match op
      case Create(u, parent) => AddKeepsForest(f, u, parent);
      case SetParent(u, parent) => ReparentKeepsForest(f, u, parent);
      case Destroy(u, _) =>
        forall c | c in f ensures f[c] != Some(u) {
          assert c in Children(f, u) <==> f[c] == Some(u);
        }
    }
  }

  ghost function Run(f: Parents, ops: seq<Op>): Parents
    decreases ops
  {
    if ops == [] then f else Run(Step(f, ops[0]), ops[1..])
  }

  /** No run of creates, reparentings and destroys ever leaves a cycle or a missing parent. */
  lemma {:induction false} RunKeepsForest(f: Parents, ops: seq<Op>)
    requires IsForest(f)
    ensures IsForest(Run(f, ops))
    decreases ops
  {
    if ops != [] {
      StepKeepsForest(f, ops[0]);
      RunKeepsForest(Step(f, ops[0]), ops[1..]);
    }
  }

  // ----- detaching a subtree -----

  ghost function Subtree(f: Parents, u: int): set<int> {
    {u} + Descendants(f, u)
  }

  lemma ParentInSubtree(f: Parents, u: int, w: int)
    requires IsForest(f) && u in f && w in f && w != u && f[w].Some?
    ensures w in Subtree(f, u) <==> f[w].value in Subtree(f, u)
  {
    var b := f[w].value;
    ReachesSelf(f, u);
    if Reaches(f, u, b) { ReachesExtends(f, u, b, w); }
    if Reaches(f, u, w) { ReachesParent(f, u, w); }
  }

  lemma RootOutsideSubtree(f: Parents, u: int, w: int)
    requires IsForest(f) && w in f && w != u && f[w].None?
    ensures w !in Subtree(f, u)
  {
    if Reaches(f, u, w) { ReachesParent(f, u, w); }
  }

  /** Once its root is detached, a subtree has no ancestors outside itself, and the rest keeps its own. */
  lemma {:induction false} DetachedAncestors(f: Parents, u: int, w: int)
    requires IsForest(f) && u in f && w in f && IsForest(f[u := None])
    ensures w in Subtree(f, u) ==> forall x :: x in Ancestors(f[u := None], w) ==> x in Subtree(f, u)
    ensures w !in Subtree(f, u) ==> Ancestors(f[u := None], w) == Ancestors(f, w)
    ensures w !in Subtree(f, u) ==> forall x :: x in Ancestors(f, w) ==> x !in Subtree(f, u)
    decreases RankOf(f).bound - RankOf(f).height[w]
  {
    if w != u {
      if f[w].Some? {
        ParentInSubtree(f, u, w);
        DetachedAncestors(f, u, f[w].value);
      } else {
        RootOutsideSubtree(f, u, w);
      }
    }
  }
}
