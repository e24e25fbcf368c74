/**
  Burial and exhumation of items, collections and units: the guards, the
  one-deep memory of an item's stage, and what holds over whole runs.
 */
module Burial {
  import opened Sets
  import opened Wrappers

  const APPROVED := 300
  const BURIED := 500

  datatype Item = Item(stage: int, reason: Option<string>, previousStage: Option<int>,
                       previousReason: Option<string>, collections: set<int>)

  datatype Collection = Collection(buried: bool, parent: Option<int>, units: set<int>)

  datatype Unit = Unit(buried: bool, parent: Option<int>)

  datatype State = State(items: map<int, Item>, collections: map<int, Collection>, units: map<int, Unit>)

  /** The state after an operation, and whether its validations let it through. */
  datatype Outcome = Outcome(state: State, ok: bool)

  datatype Entity = I(id: int) | C(id: int) | U(id: int)

  // ----- what is live -----

  predicate Exists(s: State, e: Entity) {
    match e
    case I(i) => i in s.items
    case C(c) => c in s.collections
    case U(u) => u in s.units
  }

  predicate Live(s: State, e: Entity) {
    match e
    case I(i) => i in s.items && s.items[i].stage != BURIED
    case C(c) => c in s.collections && !s.collections[c].buried
    case U(u) => u in s.units && !s.units[u].buried
  }

  predicate HasLiveCollection(s: State, i: int)
    requires i in s.items
  {
    exists c :: c in s.items[i].collections && Live(s, C(c))
  }

  predicate HasLiveUnit(s: State, c: int)
    requires c in s.collections
  {
    exists u :: u in s.collections[c].units && Live(s, U(u))
  }

  // ----- stages of an item -----

  /** `set_previous_stage`: a stage change remembers the old stage and reason, and drops a reason left as it was. */
  function Remembering(was: Item, stage: int, reason: Option<string>): Item {
    if stage == was.stage then was.(reason := reason)
    else was.(stage := stage, previousStage := Some(was.stage), previousReason := was.reason,
              reason := if reason != was.reason then reason else None)
  }

  function BuriedItem(it: Item): Item { Remembering(it, BURIED, it.reason) }

  function ExhumedItem(it: Item): Item {
    Remembering(it, if it.previousStage.Some? then it.previousStage.value else APPROVED, it.previousReason)
  }

  /** Burying and then exhuming gives back the exact stage and reason. */
  lemma StageRoundTrip(it: Item)
    requires it.stage != BURIED
    ensures ExhumedItem(BuriedItem(it)) == it.(previousStage := Some(BURIED), previousReason := None)
  {}

  /** An exhumed item has the remembered reason exactly when there was none, or the current one differs from it. */
  lemma ReasonRestoredIff(it: Item)
    requires it.stage == BURIED && it.previousStage != Some(BURIED)
    ensures ExhumedItem(it).reason == it.previousReason <==>
            it.previousReason.None? || it.reason != it.previousReason
  {}

  /** A reason that was put back by hand while the item was buried is dropped when it comes back. */
  lemma ReasonLost(reason: string)
    ensures var buried := Item(BURIED, Some(reason), Some(APPROVED), Some(reason), {});
            ExhumedItem(buried).stage == APPROVED && ExhumedItem(buried).reason == None
  {}

  // ----- operations -----

  predicate ItemsBuried(s: State, c: int) {
    forall i :: i in s.items && c in s.items[i].collections ==> !Live(s, I(i))
  }

  predicate ChildCollectionsBuried(s: State, c: int) {
    forall d :: d in s.collections && s.collections[d].parent == Some(c) ==> !Live(s, C(d))
  }

  predicate ChildUnitsBuried(s: State, u: int) {
    forall v :: v in s.units && s.units[v].parent == Some(u) ==> !Live(s, U(v))
  }

  predicate CollectionsBuried(s: State, u: int) {
    forall c :: c in s.collections && u in s.collections[c].units ==> !Live(s, C(c))
  }

  function Bury(s: State, e: Entity): Outcome {
    if !Exists(s, e) then Outcome(s, false) else
    if !Live(s, e) then Outcome(s, true) else
    match e
    case I(i) => Outcome(s.(items := s.items[i := BuriedItem(s.items[i])]), true)
    case C(c) =>
      if !ItemsBuried(s, c) || !ChildCollectionsBuried(s, c) then Outcome(s, false)
      else Outcome(s.(collections := s.collections[c := s.collections[c].(buried := true)]), true)
    case U(u) =>
      if !ChildUnitsBuried(s, u) || !CollectionsBuried(s, u) then Outcome(s, false)
      else Outcome(s.(units := s.units[u := s.units[u].(buried := true)]), true)
  }

  /** An item or a collection needs one live owner to come back; a unit needs nothing. */
  function Exhume(s: State, e: Entity): Outcome {
    if !Exists(s, e) then Outcome(s, false) else
    if Live(s, e) then Outcome(s, true) else
    match e
    case I(i) =>
      var it := ExhumedItem(s.items[i]);
      if it.stage != BURIED && !HasLiveCollection(s, i) then Outcome(s, false)
      else Outcome(s.(items := s.items[i := it]), true)
    case C(c) =>
      if !HasLiveUnit(s, c) then Outcome(s, false)
      else Outcome(s.(collections := s.collections[c := s.collections[c].(buried := false)]), true)
    case U(u) => Outcome(s.(units := s.units[u := s.units[u].(buried := false)]), true)
  }

  /** Any other save of an item's stage and reason; leaving the buried stage is guarded in the same way. */
  function SetStage(s: State, i: int, stage: int, reason: Option<string>): Outcome {
    if i !in s.items then Outcome(s, false)
    else if s.items[i].stage == BURIED && stage != BURIED && !HasLiveCollection(s, i) then Outcome(s, false)
    else Outcome(s.(items := s.items[i := Remembering(s.items[i], stage, reason)]), true)
  }

  /** A collection or unit must be empty to be destroyed. */
  function Destroy(s: State, e: Entity): Outcome {
    if !Exists(s, e) then Outcome(s, false) else
    match e
    case I(i) => Outcome(s.(items := s.items - {i}), true)
    case C(c) =>
      if (exists d :: d in s.collections && s.collections[d].parent == Some(c))
         || (exists i :: i in s.items && c in s.items[i].collections) then Outcome(s, false)
      else Outcome(s.(collections := s.collections - {c}), true)
    case U(u) =>
      if (exists v :: v in s.units && s.units[v].parent == Some(u))
         || (exists c :: c in s.collections && u in s.collections[c].units) then Outcome(s, false)
      else Outcome(s.(units := s.units - {u}), true)
  }

  // ----- what lets an operation through -----

  /** `e` has to be buried before `p`: it is an item or child of it. */
  predicate Under(s: State, e: Entity, p: Entity) {
    match (e, p)
    case (I(i), C(c)) => i in s.items && c in s.items[i].collections
    case (C(d), C(c)) => d in s.collections && s.collections[d].parent == Some(c)
    case (C(c), U(u)) => c in s.collections && u in s.collections[c].units
    case (U(v), U(u)) => v in s.units && s.units[v].parent == Some(u)
    case _ => false
  }

  /** What is live is buried exactly when nothing live is under it, and nothing else is; otherwise nothing changes. */
  lemma BuryGuard(s: State, p: Entity)
    requires Live(s, p)
    ensures var r := Bury(s, p);
            && (r.ok <==> forall e :: Under(s, e, p) ==> !Live(s, e))
            && (!r.ok ==> r.state == s)
            && (r.ok ==> forall e :: Live(r.state, e) <==> Live(s, e) && e != p)
  {
    if p.I? { assert forall e :: !Under(s, e, p); } else { GuardIff(s, p); }
  }

  /** Both guards of a collection or unit, in terms of what is under it. */
  lemma GuardIff(s: State, p: Entity)
    requires !p.I?
    ensures (if p.C? then ItemsBuried(s, p.id) && ChildCollectionsBuried(s, p.id)
             else ChildUnitsBuried(s, p.id) && CollectionsBuried(s, p.id)) <==>
            forall e :: Under(s, e, p) ==> !Live(s, e)
  {
    match p
    case C(c) =>
      if !ItemsBuried(s, c) {
        var i :| i in s.items && c in s.items[i].collections && Live(s, I(i));
        assert Under(s, I(i), p);
      }
      if !ChildCollectionsBuried(s, c) {
        var d :| d in s.collections && s.collections[d].parent == Some(c) && Live(s, C(d));
        assert Under(s, C(d), p);
      }
    case U(u) =>
      if !ChildUnitsBuried(s, u) {
        var v :| v in s.units && s.units[v].parent == Some(u) && Live(s, U(v));
        assert Under(s, U(v), p);
      }
      if !CollectionsBuried(s, u) {
        var c :| c in s.collections && u in s.collections[c].units && Live(s, C(c));
        assert Under(s, C(c), p);
      }
  }

  /** `owner` is one of the collections of an item, or one of the units of a collection. */
  predicate Owns(s: State, owner: Entity, e: Entity) {
    !(e.C? && owner.C?) && !e.U? && Under(s, e, owner)
  }

  /**
    What is buried comes back exactly when it is a unit, or one of its owners is
    live, or it is an item that remembers having been buried, which stays so.
   */
  lemma ExhumeIff(s: State, e: Entity)
    requires Exists(s, e) && !Live(s, e)
    ensures var r := Exhume(s, e);
            var stays := e.I? && s.items[e.id].previousStage == Some(500);
            && (r.ok <==> e.U? || stays || exists owner :: Owns(s, owner, e) && Live(s, owner))
            && (!r.ok ==> r.state == s)
            && (r.ok ==> forall d :: Live(r.state, d) <==> Live(s, d) || (d == e && !stays))
  {
    match e
    case I(i) =>
      if HasLiveCollection(s, i) {
        var c :| c in s.items[i].collections && Live(s, C(c));
        assert Owns(s, C(c), e);
      }
    case C(c) =>
      if HasLiveUnit(s, c) {
        var u :| u in s.collections[c].units && Live(s, U(u));
        assert Owns(s, U(u), e);
      }
    case U(u) =>
  }

  /** An item can be destroyed at any time, a collection or unit exactly when nothing at all is under it. */
  lemma DestroyIff(s: State, e: Entity)
    requires Exists(s, e)
    ensures var r := Destroy(s, e);
            && (r.ok <==> e.I? || forall d :: !Under(s, d, e))
            && (!r.ok ==> r.state == s)
            && (r.ok ==> forall d :: Exists(r.state, d) <==> Exists(s, d) && d != e)
  {
    match e
    case I(_) =>
    case C(c) =>
      if d :| d in s.collections && s.collections[d].parent == Some(c) { assert Under(s, C(d), e); }
      if i :| i in s.items && c in s.items[i].collections { assert Under(s, I(i), e); }
    case U(u) =>
      if v :| v in s.units && s.units[v].parent == Some(u) { assert Under(s, U(v), e); }
      if c :| c in s.collections && u in s.collections[c].units { assert Under(s, C(c), e); }
  }

  /** Stage 500 is left only under a live collection, and a change of stage is remembered. */
  lemma SetStageIff(s: State, i: int, stage: int, reason: Option<string>)
    requires i in s.items
    ensures var it := s.items[i];
            && (SetStage(s, i, stage, reason).ok <==>
                (it.stage == 500 && stage != 500 ==> exists c :: c in it.collections && Live(s, C(c))))
            && (SetStage(s, i, stage, reason).ok && it.stage != stage ==>
                SetStage(s, i, stage, reason).state.items[i] ==
                Item(stage, if it.reason == reason then None else reason, Some(it.stage), it.reason, it.collections))
  {}

  // ----- no live orphans -----

  ghost predicate NoOrphans(s: State) {
    && (forall i :: i in s.items && Live(s, I(i)) && s.items[i].collections != {} ==> HasLiveCollection(s, i))
    && (forall c :: c in s.collections && Live(s, C(c)) && s.collections[c].units != {} ==> HasLiveUnit(s, c))
  }

  /** The collections of an item, or the units of a collection. */
  function Memberships(s: State, e: Entity): set<int>
    requires Exists(s, e)
  {
    match e
    case I(i) => s.items[i].collections
    case C(c) => s.collections[c].units
    case U(_) => {}
  }

  datatype Op =
    | BuryOne(e: Entity)
    | ExhumeOne(e: Entity)
    | SaveStage(i: int, stage: int, reason: Option<string>)
    | DestroyOne(e: Entity)

  function Step(s: State, op: Op): State {
    match op
    case BuryOne(e) => Bury(s, e).state
    case ExhumeOne(e) => Exhume(s, e).state
    case SaveStage(i, stage, reason) => SetStage(s, i, stage, reason).state
    case DestroyOne(e) => Destroy(s, e).state
  }

  lemma StepKeepsOwners(s: State, op: Op)
    requires NoOrphans(s)
    ensures NoOrphans(Step(s, op))
  {}

  ghost function Run(s: State, ops: seq<Op>): State
    decreases ops
  {
    if ops == [] then s else Run(Step(s, ops[0]), ops[1..])
  }

  /** With memberships fixed, no run leaves a live item or collection without a live owner if it had owners. */
  lemma {:induction false} RunKeepsOwners(s: State, ops: seq<Op>)
    requires NoOrphans(s)
    ensures NoOrphans(Run(s, ops))
    ensures forall e :: Live(Run(s, ops), e) && Memberships(Run(s, ops), e) != {} ==>
              exists owner :: Owns(Run(s, ops), owner, e) && Live(Run(s, ops), owner)
    decreases ops
  {
    if ops != [] {
      StepKeepsOwners(s, ops[0]);
      RunKeepsOwners(Step(s, ops[0]), ops[1..]);
    } else {
      forall e | Live(s, e) && Memberships(s, e) != {} ensures exists owner :: Owns(s, owner, e) && Live(s, owner) {
        match e
        case I(i) =>
          var c :| c in s.items[i].collections && Live(s, C(c));
          assert Owns(s, C(c), e);
        case C(c) =>
          var u :| u in s.collections[c].units && Live(s, U(u));
          assert Owns(s, U(u), e);
        case U(_) =>
      }
    }
  }

  // ----- other saves of what is buried -----

  /** The guard on burial is repeated on every save of a collection or unit that is buried. */
  predicate SaveRefused(s: State, e: Entity) {
    match e
    case I(_) => false
    case C(c) => Exists(s, e) && !Live(s, e) && !(ItemsBuried(s, c) && ChildCollectionsBuried(s, c))
    case U(u) => Exists(s, e) && !Live(s, e) && !(ChildUnitsBuried(s, u) && CollectionsBuried(s, u))
  }

  /** What refuses to be saved is buried and has something live under it. */
  lemma SaveRefusedIff(s: State, p: Entity)
    requires !p.I?
    ensures SaveRefused(s, p) <==> Exists(s, p) && !Live(s, p) && exists e :: Live(s, e) && Under(s, e, p)
  {
    GuardIff(s, p);
  }

  /** An item of two collections: one is buried with it, and the item comes back through the other. */
  function TwoCollections(): State {
    State(map[1 := Item(300, None, None, None, {4, 5})],
          map[4 := Collection(false, None, {9}), 5 := Collection(false, None, {9})], map[9 := Unit(false, None)])
  }

  /** Then the first collection refuses every other save. */
  lemma CollectionRefusalReachable()
    ensures SaveRefused(Run(TwoCollections(), [BuryOne(I(1)), BuryOne(C(4)), ExhumeOne(I(1))]), C(4))
  {
    var s, ops := TwoCollections(), [BuryOne(I(1)), BuryOne(C(4)), ExhumeOne(I(1))];
    var s1 := Step(s, ops[0]);
    var s2 := Step(s1, ops[1]);
    assert s1.items[1].stage == 500 && s1.collections == s.collections && s1.items.Keys == {1};
    assert s2.collections[4].buried && !s2.collections[5].buried && s2.items == s1.items;
    assert HasLiveCollection(s2, 1) by { assert 5 in s2.items[1].collections && Live(s2, C(5)); }
    var s3 := Step(s2, ops[2]);
    assert s3.items[1].stage == 300 && 4 in s3.items[1].collections && Live(s3, I(1)) && !Live(s3, C(4));
    assert ops[1..] == [ops[1], ops[2]] && [ops[1], ops[2]][1..] == [ops[2]] && [ops[2]][1..] == [];
    assert Run(s2, [ops[2]]) == Run(s3, []);
  }

  /** A live child brought back under a buried unit makes the unit refuse every other save. */
  lemma SaveRefusedReachable()
    ensures var s := State(map[], map[], map[1 := Unit(false, None), 2 := Unit(false, Some(1))]);
            SaveRefused(Run(s, [BuryOne(U(2)), BuryOne(U(1)), ExhumeOne(U(2))]), U(1))
  {}

  // ----- burying a whole subtree and bringing it back -----

  function BuryAll(s: State, plan: seq<Entity>): Outcome {
    if plan == [] then Outcome(s, true) else
    var r := BuryAll(s, plan[..|plan| - 1]);
    if r.ok then Bury(r.state, plan[|plan| - 1]) else r
  }

  /** From the last entity of the plan to the first. */
  function ExhumeAll(s: State, plan: seq<Entity>): Outcome
    decreases plan
  {
    if plan == [] then Outcome(s, true) else
    var r := Exhume(s, plan[|plan| - 1]);
    if r.ok then ExhumeAll(r.state, plan[..|plan| - 1]) else r
  }

  /** Live entities, once each, everything live under one of them coming before it. */
  ghost predicate LeafFirst(s: State, plan: seq<Entity>) {
    && NoRepeats(plan)
    && (forall k :: 0 <= k < |plan| ==> Live(s, plan[k]))
    && (forall k, e {:trigger Under(s, e, plan[k])} ::
          0 <= k < |plan| && Live(s, e) && Under(s, e, plan[k]) ==> e in plan[..k])
  }

  ghost predicate OwnedOne(s: State, e: Entity) {
    match e
    case I(i) => i in s.items && HasLiveCollection(s, i)
    case C(c) => c in s.collections && HasLiveUnit(s, c)
    case U(_) => true
  }

  /** Each item of the plan has a live collection, and each collection a live unit, in the plan or not. */
  ghost predicate Owned(s: State, plan: seq<Entity>) {
    forall k :: 0 <= k < |plan| ==> OwnedOne(s, plan[k])
  }

  ghost function ItemBetween(it: Item, e: Entity, down: seq<Entity>, back: seq<Entity>): Item {
    if e in down then BuriedItem(it)
    else if e in back then it.(previousStage := Some(BURIED), previousReason := None)
    else it
  }

  /** `s` with some entities buried and the items among some others having been buried and exhumed. */
  ghost predicate Between(s: State, down: seq<Entity>, back: seq<Entity>, t: State) {
    && t.items.Keys == s.items.Keys && t.collections.Keys == s.collections.Keys && t.units.Keys == s.units.Keys
    && (forall i :: i in s.items ==> t.items[i] == ItemBetween(s.items[i], I(i), down, back))
    && (forall c :: c in s.collections ==>
          t.collections[c] == s.collections[c].(buried := s.collections[c].buried || C(c) in down))
    && (forall u :: u in s.units ==> t.units[u] == s.units[u].(buried := s.units[u].buried || U(u) in down))
  }

  lemma LiveBetween(s: State, down: seq<Entity>, back: seq<Entity>, t: State, e: Entity)
    requires Between(s, down, back, t)
    ensures Live(t, e) <==> Live(s, e) && e !in down
  {}

  lemma UnderBetween(s: State, down: seq<Entity>, back: seq<Entity>, t: State, e: Entity, p: Entity)
    requires Between(s, down, back, t)
    ensures Under(t, e, p) <==> Under(s, e, p)
  {}

  lemma BuryStep(s: State, plan: seq<Entity>, k: nat, t: State)
    requires LeafFirst(s, plan) && k < |plan| && Between(s, plan[..k], [], t)
    ensures Bury(t, plan[k]).ok && Between(s, plan[..k + 1], [], Bury(t, plan[k]).state)
  {
    var p := plan[k];
    assert p !in plan[..k];
    LiveBetween(s, plan[..k], [], t, p);
    forall e | Under(t, e, p) ensures !Live(t, e) {
      UnderBetween(s, plan[..k], [], t, e, p);
      LiveBetween(s, plan[..k], [], t, e);
    }
    BuryGuard(t, p);
    assert forall e :: e in plan[..k + 1] <==> e in plan[..k] || e == p;
  }

  /** Leaf-first, every guard lets the burial through. */
  lemma {:induction false} BuryAllPasses(s: State, plan: seq<Entity>, k: nat)
    requires LeafFirst(s, plan) && k <= |plan|
    ensures BuryAll(s, plan[..k]).ok && Between(s, plan[..k], [], BuryAll(s, plan[..k]).state)
  {
    if k != 0 {
      BuryAllPasses(s, plan, k - 1);
      assert plan[..k][..k - 1] == plan[..k - 1];
      BuryStep(s, plan, k - 1, BuryAll(s, plan[..k - 1]).state);
    }
  }

  /** A live owner of a plan member comes later in the plan, or is not in it. */
  lemma OwnerNotDown(s: State, plan: seq<Entity>, k: nat, owner: Entity)
    requires LeafFirst(s, plan) && k < |plan| && Under(s, plan[k], owner)
    ensures owner !in plan[..k + 1]
  {}

  lemma ExhumeStep(s: State, plan: seq<Entity>, k: nat, t: State)
    requires LeafFirst(s, plan) && k < |plan| && OwnedOne(s, plan[k])
    requires Between(s, plan[..k + 1], plan[k + 1..], t)
    ensures Exhume(t, plan[k]).ok && Between(s, plan[..k], plan[k..], Exhume(t, plan[k]).state)
  {
    var p := plan[k];
    assert p in plan[..k + 1] by { assert plan[..k + 1][k] == p; }
    assert p !in plan[..k] && p in plan[k..] by { assert plan[k..][0] == p; }
    LiveBetween(s, plan[..k + 1], plan[k + 1..], t, p);
    match p {
      case I(i) =>
        var c :| c in s.items[i].collections && Live(s, C(c));
        OwnerNotDown(s, plan, k, C(c));
        LiveBetween(s, plan[..k + 1], plan[k + 1..], t, C(c));
        StageRoundTrip(s.items[i]);
      case C(c) =>
        var u :| u in s.collections[c].units && Live(s, U(u));
        OwnerNotDown(s, plan, k, U(u));
        LiveBetween(s, plan[..k + 1], plan[k + 1..], t, U(u));
      case U(u) =>
    }
    assert forall e :: e in plan[..k + 1] <==> e in plan[..k] || e == p;
    assert forall e :: e in plan[k..] <==> e in plan[k + 1..] || e == p;
  }

  lemma {:induction false} ExhumeAllIff(s: State, plan: seq<Entity>, k: nat, t: State)
    requires LeafFirst(s, plan) && k <= |plan|
    requires Between(s, plan[..k], plan[k..], t)
    ensures ExhumeAll(t, plan[..k]).ok <==> Owned(s, plan[..k])
    ensures Owned(s, plan[..k]) ==> Between(s, [], plan, ExhumeAll(t, plan[..k]).state)
  {
    if k == 0 {
      assert plan[0..] == plan && plan[..0] == [];
    } else {
      assert plan[..k][..k - 1] == plan[..k - 1] && plan[..k][k - 1] == plan[k - 1];
      OwnedNext(s, plan, k);
      if OwnedOne(s, plan[k - 1]) {
        ExhumeStep(s, plan, k - 1, t);
        ExhumeAllIff(s, plan, k - 1, Exhume(t, plan[k - 1]).state);
      }
    }
  }

  lemma OwnedNext(s: State, plan: seq<Entity>, k: nat)
    requires 0 < k <= |plan|
    ensures Owned(s, plan[..k]) <==> Owned(s, plan[..k - 1]) && OwnedOne(s, plan[k - 1])
  {}

  /** Everything as it was: flags, memberships, and each item's stage and reason. */
  ghost predicate Restored(s: State, t: State) {
    && t.collections == s.collections && t.units == s.units && t.items.Keys == s.items.Keys
    && forall i :: i in s.items ==>
         t.items[i].stage == s.items[i].stage && t.items[i].reason == s.items[i].reason
         && t.items[i].collections == s.items[i].collections
  }

  /**
    Burying a subtree leaf-first always passes. Exhuming it in reverse passes
    exactly when everything in it had a live owner, and then restores it.
   */
  lemma SubtreeRoundTrip(s: State, plan: seq<Entity>)
    requires LeafFirst(s, plan)
    ensures var down := BuryAll(s, plan);
            && down.ok && (forall k :: 0 <= k < |plan| ==> !Live(down.state, plan[k]))
            && (ExhumeAll(down.state, plan).ok <==> Owned(s, plan))
            && (Owned(s, plan) ==> Restored(s, ExhumeAll(down.state, plan).state))
    ensures var back := ExhumeAll(BuryAll(s, plan).state, plan);
            && (back.ok <==> forall e :: e in plan ==> e.U? || exists owner :: Owns(s, owner, e) && Live(s, owner))
            && (back.ok ==>
                && back.state.collections == s.collections && back.state.units == s.units
                && back.state.items.Keys == s.items.Keys
                && forall i :: i in s.items ==>
                     var was, it := s.items[i], back.state.items[i];
                     it.stage == was.stage && it.reason == was.reason && it.collections == was.collections)
  {
    OwnedMeans(s, plan);
    BuryAllPasses(s, plan, |plan|);
    assert plan[..|plan|] == plan && plan[|plan|..] == [];
    var t := BuryAll(s, plan).state;
    ExhumeAllIff(s, plan, |plan|, t);
    if Owned(s, plan) { BackIsRestored(s, plan, ExhumeAll(t, plan).state); }
  }

  lemma OwnedMeans(s: State, plan: seq<Entity>)
    requires LeafFirst(s, plan)
    ensures Owned(s, plan) <==> forall e :: e in plan ==> e.U? || exists owner :: Owns(s, owner, e) && Live(s, owner)
  {
    forall k | 0 <= k < |plan|
      ensures OwnedOne(s, plan[k]) <==> plan[k].U? || exists owner :: Owns(s, owner, plan[k]) && Live(s, owner)
    {
      OwnedOneMeans(s, plan[k]);
    }
  }

  lemma OwnedOneMeans(s: State, e: Entity)
    requires Exists(s, e)
    ensures OwnedOne(s, e) <==> e.U? || exists owner :: Owns(s, owner, e) && Live(s, owner)
  {
    match e
    case I(i) =>
      if HasLiveCollection(s, i) {
        var c :| c in s.items[i].collections && Live(s, C(c));
        assert Owns(s, C(c), e);
      }
    case C(c) =>
      if HasLiveUnit(s, c) {
        var u :| u in s.collections[c].units && Live(s, U(u));
        assert Owns(s, U(u), e);
      }
    case U(_) =>
  }

  lemma BackIsRestored(s: State, plan: seq<Entity>, t: State)
    requires Between(s, [], plan, t)
    ensures Restored(s, t)
  {
    forall c | c in s.collections ensures t.collections[c] == s.collections[c] {}
    forall u | u in s.units ensures t.units[u] == s.units[u] {}
    forall c ensures c in t.collections <==> c in s.collections {
      assert c in t.collections.Keys <==> c in s.collections.Keys;
    }
    forall u ensures u in t.units <==> u in s.units { assert u in t.units.Keys <==> u in s.units.Keys; }
  }
}
