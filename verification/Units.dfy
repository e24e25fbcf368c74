/** The `units` table: its tree operations, its roll-ups, and what a move to another institution does to it. */
module Units {
  import Burial
  import opened Forest
  import opened Lexicographic
  import opened RollUps
  import opened Sets
  import opened Text
  import opened Wrappers

  type Users = set<int>

  /** The burial flags, for the same units and parents. */
  ghost predicate FlagsOf(f: Parents, flags: Burial.State) {
    flags.units.Keys == f.Keys && forall w :: w in f ==> flags.units[w].parent == f[w]
  }

  function Detached(flags: Burial.State, u: int): Burial.State
    requires u in flags.units
  {
    flags.(units := flags.units[u := flags.units[u].(parent := None)])
  }

  /** Detaching the root of a subtree does not change which units of the subtree refuse to be saved. */
  lemma DetachKeepsRefusals(f: Parents, flags: Burial.State, u: int, w: int)
    requires IsForest(f) && u in f && FlagsOf(f, flags) && w in Subtree(f, u)
    ensures Burial.SaveRefused(Detached(flags, u), Burial.U(w)) <==> Burial.SaveRefused(flags, Burial.U(w))
  {
    var now := Detached(flags, u);
    forall v | v in f
      ensures now.units[v].parent == Some(w) <==> flags.units[v].parent == Some(w)
      ensures Burial.Live(now, Burial.U(v)) <==> Burial.Live(flags, Burial.U(v))
    {
      if v == u && f[u] == Some(w) {
        ReachesSelf(f, u);
        ParentNotBelow(f, u);
      }
    }
    assert Burial.ChildUnitsBuried(now, w) <==> Burial.ChildUnitsBuried(flags, w);
    assert Burial.CollectionsBuried(now, w) <==> Burial.CollectionsBuried(flags, w) by {
      forall c ensures Burial.Live(now, Burial.C(c)) <==> Burial.Live(flags, Burial.C(c)) {}
    }
  }

  ghost function AllUsers(admins: map<int, Users>, us: seq<int>): Users {
    set x, i | 0 <= i < |us| && us[i] in admins && x in admins[us[i]] :: x
  }

  /** A unit's own administrators, those of its ancestors and those of its institution. */
  ghost function EffectiveAdmins(f: Parents, admins: map<int, Users>, institutionAdmins: Users, u: int): Users
    requires IsForest(f) && u in f && u in admins
  {
    admins[u] + AllUsers(admins, Ancestors(f, u)) + institutionAdmins
  }

  /** Who administers a unit: the administrators of all units it can be reached from, and of its institution. */
  lemma EffectiveAdminsIff(f: Parents, admins: map<int, Users>, institutionAdmins: Users, u: int, x: int)
    requires IsForest(f) && u in f && admins.Keys == f.Keys
    ensures x in EffectiveAdmins(f, admins, institutionAdmins, u) <==>
            x in institutionAdmins || exists a :: a in admins && x in admins[a] && Reaches(f, a, u)
  {
    ReachesSelf(f, u);
    var above := Ancestors(f, u);
    if i :| 0 <= i < |above| && above[i] in admins && x in admins[above[i]] {
      assert above[i] in above;
      AncestorIffReaches(f, above[i], u);
    }
    if a :| a in admins && x in admins[a] && Reaches(f, a, u) {
      AncestorIffReaches(f, a, u);
      if a != u {
        var i :| 0 <= i < |above| && above[i] == a;
      }
    }
  }

  ghost function ClearedBelow(f: Parents, admins: map<int, Users>, u: int): map<int, Users> {
    map w | w in admins :: if w in Subtree(f, u) then {} else admins[w]
  }

  /** After a move, the destination's administrators are the only ones left in the subtree; others keep theirs. */
  lemma MoveHandsOverAdmins(f: Parents, admins: map<int, Users>, u: int, w: int, institutionAdmins: Users)
    requires IsForest(f) && u in f && w in f && admins.Keys == f.Keys
    ensures IsForest(f[u := None])
    ensures w in Subtree(f, u) ==>
              EffectiveAdmins(f[u := None], ClearedBelow(f, admins, u), institutionAdmins, w) == institutionAdmins
    ensures w !in Subtree(f, u) ==>
              EffectiveAdmins(f[u := None], ClearedBelow(f, admins, u), institutionAdmins, w)
              == EffectiveAdmins(f, admins, institutionAdmins, w)
  {
    ReparentKeepsForest(f, u, None);
    DetachedAncestors(f, u, w);
    var g, cleared := f[u := None], ClearedBelow(f, admins, u);
    var above := Ancestors(g, w);
    if w in Subtree(f, u) {
      forall i | 0 <= i < |above| && above[i] in cleared ensures cleared[above[i]] == {} {
        assert above[i] in above;
      }
      assert AllUsers(cleared, above) == {};
    } else {
      forall i | 0 <= i < |above| && above[i] in admins ensures cleared[above[i]] == admins[above[i]] {
        assert above[i] in above;
      }
      assert AllUsers(cleared, above) == AllUsers(admins, above);
    }
  }

  class UnitTable {
    var parent: Parents
    var institution: map<int, int>
    var title: map<int, string>
    var administrators: map<int, Users>

    ghost predicate Valid()
      reads this
    {
      && IsForest(parent)
      && institution.Keys == parent.Keys
      && title.Keys == parent.Keys
      && administrators.Keys == parent.Keys
      && forall u :: u in title ==> !Blank(title[u])
    }

    constructor ()
      ensures Valid() && parent == map[]
    {
      parent, institution, title, administrators := map[], map[], map[], map[];
      new;
      assert IsForest(parent) by { RankedIsForest(parent, Rank(map[], 0)); }
    }

    /** IDs of all units below `u`: the recursive query, ordered by breadcrumb, without its first row. */
    method AllChildIds(u: int) returns (ids: seq<int>)
      requires Valid()
      ensures u in parent ==> ids == Preorder(parent, u)[1..]
      ensures u !in parent ==> ids == []
    {
      if u !in parent { return []; }
      var rows := RecursiveQuery(u);
      var order := OrderBy(rows);
      QueryIsWalk(parent, u, order);
      RowsEnd(parent, u);
      ids := OtherThan(order, u);
    }

    /** The query's rows, found level by level; each row is the breadcrumb of one unit. */
    method RecursiveQuery(u: int) returns (rows: set<Word>)
      requires Valid() && u in parent
      ensures forall q :: q in rows <==> IsPath(parent, q) && q[0] == u
    {
      ghost var bound := RankOf(parent).bound;
      var working: set<Word> := {[u]};
      rows := {};
      ghost var level := 0;
      forall q | IsPath(parent, q) && q[0] == u && |q| == 1 ensures q in working { assert q == [u]; }
      while working != {}
        invariant forall q :: q in rows <==> IsPath(parent, q) && q[0] == u && |q| <= level
        invariant forall q :: q in working <==> IsPath(parent, q) && q[0] == u && |q| == level + 1
        invariant 0 <= level <= bound + 1
        decreases bound + 1 - level
      {
        ghost var any := Pick(working);
        HeightFalls(parent, RankOf(parent), any);
        var next := set q, c | q in working && c in parent && q != [] && parent[c] == Some(q[|q| - 1]) :: q + [c];
        NextLevel(parent, u, level, working, next);
        rows := rows + working;
        working := next;
        level := level + 1;
      }
      forall q | IsPath(parent, q) && q[0] == u ensures |q| <= level {
        if |q| > level { LevelReached(parent, q, level); }
      }
    }

    /** Parents from closest to farthest. */
    method AllParents(u: int) returns (parents: seq<int>)
      requires Valid() && u in parent
      ensures parents == Ancestors(parent, u)
      ensures forall i :: 0 <= i < |parents| ==> parents[i] in parent
      ensures if parents == [] then parent[u].None?
              else parent[u] == Some(parents[0]) && parent[parents[|parents| - 1]].None?
      ensures forall i :: 0 < i < |parents| ==> parent[parents[i - 1]] == Some(parents[i])
    {
      parents := [];
      var p := parent[u];
      ghost var at := u;
      while p.Some?
        invariant at in parent && p == parent[at]
        invariant parents + Ancestors(parent, at) == Ancestors(parent, u)
        decreases RankOf(parent).bound - RankOf(parent).height[at]
      {
        parents := parents + [p.value];
        at := p.value;
        p := parent[p.value];
      }
      AncestorsClimb(parent, u);
    }

    /** Saves a new unit, which needs a title. */
    method Create(u: int, under: Option<int>, inst: int, name: string) returns (ok: bool)
      requires Valid()
      modifies this
      ensures Valid()
      ensures ok <==> u !in old(parent) && (under.Some? ==> under.value in old(parent)) && !Blank(name)
      ensures ok ==> parent == old(parent)[u := under] && institution == old(institution)[u := inst]
                     && title == old(title)[u := name] && administrators == old(administrators)[u := {}]
      ensures !ok ==> parent == old(parent) && institution == old(institution) && title == old(title)
                      && administrators == old(administrators)
      ensures parent == if ok then Step(old(parent), Op.Create(u, under)) else old(parent)
    {
      if u in parent || (under.Some? && under.value !in parent) || Blank(name) { return false; }
      StepKeepsForest(parent, Op.Create(u, under));
      parent := parent[u := under];
      institution := institution[u := inst];
      title := title[u := name];
      administrators := administrators[u := {}];
      ok := true;
    }

    /** Saves a unit under a new parent, after the check against itself and its descendants. */
    method UpdateParent(u: int, under: Option<int>) returns (ok: bool)
      requires Valid() && u in parent
      modifies this`parent
      ensures Valid()
      ensures ok <==> (under.Some? ==> under.value in old(parent) && !Reaches(old(parent), u, under.value))
      ensures parent == if ok then old(parent)[u := under] else old(parent)
      ensures parent == Step(old(parent), Op.SetParent(u, under))
      ensures under.Some? ==> (ok <==> IsForest(old(parent)[u := under]))
    {
      PreorderIsSubtree(parent, u);
      ReachesSelf(parent, u);
      StepKeepsForest(parent, Op.SetParent(u, under));
      if under.Some? {
        ReparentIff(parent, u, under.value);
        if under.value == u { return false; }
        var children := AllChildIds(u);
        if under.value in children { return false; }
        if under.value !in parent { return false; }
      }
      parent := parent[u := under];
      ok := true;
    }

    method Destroy(u: int, hasCollections: bool) returns (ok: bool)
      requires Valid() && u in parent
      modifies this
      ensures Valid()
      ensures ok <==> !hasCollections && forall c :: c in old(parent) ==> old(parent)[c] != Some(u)
      ensures ok ==> parent == old(parent) - {u} && institution == old(institution) - {u}
                     && title == old(title) - {u} && administrators == old(administrators) - {u}
      ensures !ok ==> parent == old(parent) && institution == old(institution) && title == old(title)
                      && administrators == old(administrators)
      ensures parent == Step(old(parent), Op.Destroy(u, hasCollections))
    {
      var children := set c | c in parent && parent[c] == Some(u);
      assert children == Children(parent, u);
      if children != {} { ghost var c := Pick(children); }
      if children != {} || hasCollections { return false; }
      forall c | c in parent ensures parent[c] != Some(u) { assert c !in children; }
      StepKeepsForest(parent, Op.Destroy(u, hasCollections));
      parent := parent - {u};
      institution, title, administrators := institution - {u}, title - {u}, administrators - {u};
      ok := true;
    }

    method EffectiveAdministeringUsers(u: int, institutionAdmins: map<int, Users>) returns (users: Users)
      requires Valid() && u in parent && institution[u] in institutionAdmins
      ensures users == EffectiveAdmins(parent, administrators, institutionAdmins[institution[u]], u)
      ensures forall x :: x in users <==>
                x in institutionAdmins[institution[u]]
                || exists a :: a in administrators && x in administrators[a] && Reaches(parent, a, u)
    {
      users := administrators[u];
      var above := AllParents(u);
      for i := 0 to |above|
        invariant users == administrators[u] + AllUsers(administrators, above[..i])
      {
        AncestorsInTable(parent, u, i);
        users := users + administrators[above[i]];
        AllUsersStep(administrators, above, i);
      }
      assert above[..|above|] == above;
      users := users + institutionAdmins[institution[u]];
      forall x
        ensures x in EffectiveAdmins(parent, administrators, institutionAdmins[institution[u]], u) <==>
                x in institutionAdmins[institution[u]]
                || exists a :: a in administrators && x in administrators[a] && Reaches(parent, a, u)
      {
        EffectiveAdminsIff(parent, administrators, institutionAdmins[institution[u]], u, x);
      }
    }

    /** Total over a unit's own share and, on request, those of all units below it. */
    method SubmittedItemCount(u: int, own: map<int, nat>, includeChildren: bool) returns (count: nat)
      requires Valid() && u in parent && own.Keys == parent.Keys
      ensures count == if includeChildren then RollUp(parent, u, Share(own)) else own[u]
    {
      count := 0;
      if includeChildren {
        var children := AllChildIds(u);
        RollUpIsPreorderSum(parent, u, Share(own));
        PreorderIsSubtree(parent, u);
        forall i | 0 <= i < |children| ensures children[i] in own {
          assert children[i] in children;
        }
        count := TotalOf(children, own);
      }
      count := own[u] + count;
    }

    /** The unit and all units below it. */
    method FromUnits(u: int) returns (us: seq<int>)
      requires Valid() && u in parent
      ensures forall w :: w in us <==> w in Subtree(parent, u)
      ensures forall w :: w in us ==> w in parent
    {
      var children := AllChildIds(u);
      us := [u] + children;
      PreorderIsSubtree(parent, u);
      assert Subtree(parent, u) <= parent.Keys;
    }

    /** Makes a unit a root. */
    method Detach(u: int)
      requires Valid() && u in parent
      modifies this`parent
      ensures Valid() && parent == old(parent)[u := None]
    {
      ReparentKeepsForest(parent, u, None);
      parent := parent[u := None];
    }

    /** Empties the administrators of a unit and saves it under an institution, if it can be saved. */
    method Reassign(w: int, dest: int, flags: Burial.State) returns (ok: bool)
      requires w in administrators && w in institution
      modifies this`administrators, this`institution
      ensures ok <==> !Burial.SaveRefused(flags, Burial.U(w))
      ensures administrators == old(administrators)[w := {}]
      ensures institution == if ok then old(institution)[w := dest] else old(institution)
    {
      administrators := administrators[w := {}];
      if Burial.SaveRefused(flags, Burial.U(w)) { return false; }
      institution := institution[w := dest];
      ok := true;
    }
  }

  ghost function Share(own: map<int, nat>): (share: int -> nat)
    ensures forall w :: share(w) == if w in own then own[w] else 0
  {
    x => if x in own then own[x] else 0
  }

  method TotalOf(ids: seq<int>, own: map<int, nat>) returns (count: nat)
    requires forall i :: 0 <= i < |ids| ==> ids[i] in own
    ensures count == SumSeq(ids, Share(own))
  {
    count := 0;
    for i := 0 to |ids|
      invariant count + SumSeq(ids[i..], Share(own)) == SumSeq(ids, Share(own))
    {
      count := count + own[ids[i]];
      assert ids[i..][1..] == ids[i + 1..];
    }
  }

  /** The last entry of each row, unless it is `u`; only the first row ends in `u`. */
  method OtherThan(order: seq<Word>, u: int) returns (ids: seq<int>)
    requires forall i :: 0 <= i < |order| ==> order[i] != [] && (LastOf(order[i]) == u <==> i == 0)
    requires order != []
    ensures ids == Ends(order)[1..]
  {
    ids := [];
    for i := 0 to |order|
      invariant ids == if i == 0 then [] else Ends(order)[1..i]
    {
      var id := order[i][|order[i]| - 1];
      if id != u { ids := ids + [id]; }
    }
  }

  lemma RowsEnd(f: Parents, u: int)
    requires IsForest(f) && u in f
    ensures Ends(PathWalk(f, [u])) == Preorder(f, u)
    ensures forall i :: 0 <= i < |PathWalk(f, [u])| ==>
              PathWalk(f, [u])[i] != [] && (LastOf(PathWalk(f, [u])[i]) == u <==> i == 0)
  {
    WalkEnds(f, [u]);
    PreorderIsSubtree(f, u);
    forall i | 0 <= i < |PathWalk(f, [u])|
      ensures PathWalk(f, [u])[i] != [] && (LastOf(PathWalk(f, [u])[i]) == u <==> i == 0)
    {
      WalkRow(f, u, i);
    }
  }

  lemma LevelReached(f: Parents, q: Word, level: nat)
    requires IsPath(f, q) && level < |q|
    ensures exists p :: IsPath(f, p) && p[0] == q[0] && |p| == level + 1
  {
    assert IsPath(f, q[..level + 1]) && q[..level + 1][0] == q[0];
  }

  lemma NextLevel(f: Parents, u: int, level: nat, working: set<Word>, next: set<Word>)
    requires forall q :: q in working <==> IsPath(f, q) && q[0] == u && |q| == level + 1
    requires next == set q, c | q in working && c in f && q != [] && f[c] == Some(q[|q| - 1]) :: q + [c]
    ensures forall q :: q in next <==> IsPath(f, q) && q[0] == u && |q| == level + 2
  {
    forall q | IsPath(f, q) && q[0] == u && |q| == level + 2 ensures q in next {
      var p, c := q[..level + 1], q[level + 1];
      assert IsPath(f, p) && p in working && q == p + [c];
    }
  }

  lemma QueryIsWalk(f: Parents, u: int, order: seq<Word>)
    requires IsForest(f) && u in f && Ascending(order)
    requires forall q :: q in order <==> IsPath(f, q) && q[0] == u
    ensures order == PathWalk(f, [u]) && |order| == |Preorder(f, u)|
  {
    forall q ensures q in order <==> q in PathWalk(f, [u]) {
      PathWalkMembers(f, [u], q);
    }
    PathWalkAscending(f, [u]);
    AscendingUnique(order, PathWalk(f, [u]));
    WalkEnds(f, [u]);
  }

  lemma AncestorsInTable(f: Parents, u: int, i: nat)
    requires IsForest(f) && u in f && i < |Ancestors(f, u)|
    ensures Ancestors(f, u)[i] in f
  {
    var a := Ancestors(f, u)[i];
    assert a in Ancestors(f, u);
    AncestorIffReaches(f, a, u);
    var p :| PathBetween(f, p, a, u);
  }

  lemma AllUsersStep(admins: map<int, Users>, us: seq<int>, i: nat)
    requires i < |us| && us[i] in admins
    ensures AllUsers(admins, us[..i + 1]) == AllUsers(admins, us[..i]) + admins[us[i]]
  {
    var l, r := AllUsers(admins, us[..i + 1]), AllUsers(admins, us[..i]) + admins[us[i]];
    forall x | x in l ensures x in r {
      var j :| 0 <= j < i + 1 && us[..i + 1][j] in admins && x in admins[us[..i + 1][j]];
      if j < i { assert us[..i][j] == us[j]; }
    }
    forall x | x in r ensures x in l {
      if x in admins[us[i]] {
        assert us[..i + 1][i] == us[i];
      } else {
        var j :| 0 <= j < i && us[..i][j] in admins && x in admins[us[..i][j]];
        assert us[..i + 1][j] == us[j];
      }
    }
  }
}
