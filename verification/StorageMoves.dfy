/** Moving the bitstreams of items to another institution. */
module StorageMoves {
  import opened Storage
  import opened StorageKeys
  import opened Wrappers

  // ----- moving to another institution -----

  lemma HomeInKey(i1: string, i2: string, b: Bitstream)
    requires '/' !in i1 && '/' !in i2 && Keyed(i1, b)
    ensures Keyed(i2, RowIn(i2, b)) && (RowIn(i2, b).permanentKey.Some? <==> b.permanentKey.Some?)
    ensures i1 == i2 ==> RowIn(i2, b) == b
    ensures i1 != i2 ==> KeyOf(RowIn(i2, b)) != KeyOf(b)
  {
    KeyedPresent(i1, b);
    if i1 != i2 { NotKeyIn(i1, b, i2, RowIn(i2, b)); }
  }

  lemma NotKeyIn(i1: string, b1: Bitstream, i2: string, b2: Bitstream)
    requires '/' !in i1 && '/' !in i2 && i1 != i2 && Keyed(i1, b1)
    ensures Keyed(i2, b2) ==> KeyOf(b1) != KeyOf(b2)
  {
    if Keyed(i2, b2) && KeyOf(b1) == KeyOf(b2) {
      KeyInjective(if b1.permanentKey.Some? then "storage" else "uploads", i1, b1.item, b1.filename,
                   if b2.permanentKey.Some? then "storage" else "uploads", i2, b2.item, b2.filename);
    }
  }

  ghost predicate Movable(s: State, home: map<int, string>, id: int, institution: string)
    requires id in home
  {
    home[id] == institution || id in s.content
  }

  predicate SameName(b: Bitstream, b': Bitstream) {
    b'.item == b.item && b'.filename == b.filename && b'.original == b.original
  }

  ghost predicate SameFiles(s: State, s': State) {
    && s'.institutionOf == s.institutionOf && s'.content == s.content
    && s'.bitstreams.Keys == s.bitstreams.Keys
    && forall b :: b in s.bitstreams ==>
         SameName(s.bitstreams[b], s'.bitstreams[b])
  }

  /** Staged files are still staged, and archived ones archived. */
  ghost predicate SameAreas(s: State, s': State) {
    forall b :: b in s.bitstreams ==>
      b in s'.bitstreams && (s'.bitstreams[b].permanentKey.Some? <==> s.bitstreams[b].permanentKey.Some?)
  }

  /** One bitstream moves if it is elsewhere and has an object, stays if it is there, and raises otherwise. */
  ghost predicate MovesOne(s: State, home: map<int, string>, id: int, institution: string, r: Outcome)
    requires id in home && id in s.bitstreams
  {
    && (r.ok <==> Movable(s, home, id, institution))
    && SameFiles(s, r.state) && SameAreas(s, r.state)
    && (r.ok ==> GoodUnder(r.state, home[id := institution]))
    && (home[id] == institution || id !in s.content ==> r.state == s)
    && (home[id] != institution && id in s.content ==> KeyOf(s.bitstreams[id]) !in r.state.store)
    && (forall k :: k in r.state.store ==> k in s.store || InKeyArea(k, institution, s.bitstreams[id]))
  }

  /** A key that the bitstream has in the institution. */
  ghost predicate InKeyArea(k: string, institution: string, b: Bitstream) {
    k == PermanentKey(institution, b.item, b.filename) || k == StagingKey(institution, b.item, b.filename)
  }

  lemma RehomeStays(s: State, home: map<int, string>, id: int, institution: string)
    requires GoodUnder(s, home) && id in s.bitstreams && '/' !in institution && home[id] == institution
    ensures Rehome(s, id, institution) == Outcome(s, true) && home[id := institution] == home
  {
    RowKeyed(home, s.bitstreams, id);
    HomeInKey(institution, institution, s.bitstreams[id]);
    assert s.bitstreams[id := s.bitstreams[id]] == s.bitstreams;
  }

  lemma SavedMovesOne(s: State, home: map<int, string>, id: int, institution: string, row: Bitstream, r: Outcome)
    requires id in home && id in s.bitstreams && home[id] != institution
    requires SameName(s.bitstreams[id], row)
    requires row.permanentKey.Some? <==> s.bitstreams[id].permanentKey.Some?
    requires InKeyArea(KeyOf(row), institution, s.bitstreams[id])
    requires Saved(s, home, id, row, institution, r)
    ensures MovesOne(s, home, id, institution, r)
  {}

  lemma RehomeMoves(s: State, home: map<int, string>, id: int, institution: string)
    requires GoodUnder(s, home) && id in s.bitstreams && '/' !in institution && home[id] != institution
    ensures MovesOne(s, home, id, institution, Rehome(s, id, institution))
  {
    var row := RowIn(institution, s.bitstreams[id]);
    RowKeyed(home, s.bitstreams, id);
    HomeInKey(home[id], institution, s.bitstreams[id]);
    RowMoves(s, home, id, institution, row, SaveRow(s, id, row));
  }

  lemma RowMoves(s: State, home: map<int, string>, id: int, institution: string, row: Bitstream, r: Outcome)
    requires GoodUnder(s, home) && id in s.bitstreams && '/' !in institution && home[id] != institution
    requires Keyed(institution, row) && KeyOf(row) != KeyOf(s.bitstreams[id]) && r == SaveRow(s, id, row)
    requires SameName(s.bitstreams[id], row)
    requires row.permanentKey.Some? <==> s.bitstreams[id].permanentKey.Some?
    ensures MovesOne(s, home, id, institution, r)
  {
    OwnNameFree(s, home, id);
    SaveKeepsGood(s, home, id, row, institution);
    SavedMovesOne(s, home, id, institution, row, r);
  }

  // ----- one statement of a move -----

  /** Whether a statement goes through for bitstreams in their homes `home`. */
  ghost predicate Passes(s: State, home: map<int, string>, stop: Stop, institution: string) {
    match stop
    case Check(passes) => passes
    case Rekey(id) => id in home && Movable(s, home, id, institution)
  }

  ghost function HomeAfter(home: map<int, string>, stop: Stop, institution: string): map<int, string> {
    if stop.Rekey? && stop.id in home then home[stop.id := institution] else home
  }

  ghost predicate StopIn(stop: Stop, s: State) {
    stop.Rekey? ==> stop.id in s.bitstreams
  }

  ghost predicate MakesOne(s: State, home: map<int, string>, stop: Stop, institution: string, r: Outcome)
    requires home.Keys == s.bitstreams.Keys && StopIn(stop, s)
  {
    match stop
    case Check(passes) => r == Outcome(s, passes)
    case Rekey(id) => MovesOne(s, home, id, institution, r)
  }

  ghost predicate MakesEach(institution: string, step: (State, Stop) -> Outcome) {
    forall s: State, home, stop {:trigger MakesOne(s, home, stop, institution, step(s, stop))} ::
      GoodUnder(s, home) && StopIn(stop, s) ==> MakesOne(s, home, stop, institution, step(s, stop))
  }

  lemma MakeStopMakesEach(institution: string)
    requires '/' !in institution
    ensures MakesEach(institution, (t, stop) => MakeStop(t, stop, institution))
  {
    forall s: State, home, stop | GoodUnder(s, home) && StopIn(stop, s)
      ensures MakesOne(s, home, stop, institution, MakeStop(s, stop, institution))
    {
      if stop.Rekey? {
        if home[stop.id] == institution {
          RehomeStays(s, home, stop.id, institution);
        } else {
          RehomeMoves(s, home, stop.id, institution);
        }
      }
    }
  }

  /** What the outcome of one statement gives the rest of the move. */
  lemma StopKeepsGood(s: State, home: map<int, string>, stop: Stop, institution: string, r: Outcome)
    requires GoodUnder(s, home) && StopIn(stop, s) && MakesOne(s, home, stop, institution, r)
    ensures SameFiles(s, r.state) && SameAreas(s, r.state)
    ensures r.ok <==> Passes(s, home, stop, institution)
    ensures r.ok ==> GoodUnder(r.state, HomeAfter(home, stop, institution))
    ensures forall k :: k in r.state.store ==>
              k in s.store || (stop.Rekey? && InKeyArea(k, institution, s.bitstreams[stop.id]))
  {}

  // ----- a whole move -----

  ghost function HomesAfter(home: map<int, string>, stops: seq<Stop>, institution: string): map<int, string> {
    map b | b in home :: if Rekey(b) in stops then institution else home[b]
  }

  lemma HomesAfterCons(home: map<int, string>, stops: seq<Stop>, institution: string)
    requires stops != []
    ensures HomesAfter(HomeAfter(home, stops[0], institution), stops[1..], institution)
            == HomesAfter(home, stops, institution)
  {}

  ghost predicate AllPass(s: State, home: map<int, string>, stops: seq<Stop>, institution: string) {
    forall i :: 0 <= i < |stops| ==> Passes(s, home, stops[i], institution)
  }

  lemma AllPassCons(s: State, s': State, home: map<int, string>, stops: seq<Stop>, institution: string)
    requires stops != [] && s'.content == s.content && Passes(s, home, stops[0], institution)
    ensures AllPass(s, home, stops, institution) <==>
            AllPass(s', HomeAfter(home, stops[0], institution), stops[1..], institution)
  {}

  ghost predicate AllIn(stops: seq<Stop>, s: State) {
    forall i :: 0 <= i < |stops| ==> StopIn(stops[i], s)
  }

  lemma StillIn(s: State, s': State, stops: seq<Stop>)
    requires AllIn(stops, s) && SameFiles(s, s') && stops != []
    ensures AllIn(stops[1..], s')
  {}

  lemma {:induction false} EachKeepsGood(s: State, home: map<int, string>, stops: seq<Stop>, institution: string,
                                         step: (State, Stop) -> Outcome)
    requires GoodUnder(s, home) && AllIn(stops, s) && MakesEach(institution, step)
    ensures SameFiles(s, UntilRaised(s, stops, step).state) && SameAreas(s, UntilRaised(s, stops, step).state)
    ensures UntilRaised(s, stops, step).ok <==> AllPass(s, home, stops, institution)
    ensures UntilRaised(s, stops, step).ok ==>
              GoodUnder(UntilRaised(s, stops, step).state, HomesAfter(home, stops, institution))
    decreases stops
  {
    if stops == [] {
      assert HomesAfter(home, stops, institution) == home;
    } else {
      var r := step(s, stops[0]);
      assert MakesOne(s, home, stops[0], institution, r);
      StopKeepsGood(s, home, stops[0], institution, r);
      if r.ok {
        StillIn(s, r.state, stops);
        EachKeepsGood(r.state, HomeAfter(home, stops[0], institution), stops[1..], institution, step);
        HomesAfterCons(home, stops, institution);
        AllPassCons(s, r.state, home, stops, institution);
      }
    }
  }

  /** The first statement that raises comes before any object has been moved. */
  ghost predicate RaisesBeforeMoving(content: map<int, Content>, home: map<int, string>, stops: seq<Stop>,
                                     institution: string) {
    stops != []
    && match stops[0]
       case Check(passes) => !passes || RaisesBeforeMoving(content, home, stops[1..], institution)
       case Rekey(id) =>
         id in home
         && if home[id] == institution then RaisesBeforeMoving(content, home, stops[1..], institution)
            else id !in content
  }

  lemma {:induction false} StuckMove(s: State, home: map<int, string>, stops: seq<Stop>, institution: string,
                                     step: (State, Stop) -> Outcome)
    requires GoodUnder(s, home) && AllIn(stops, s) && MakesEach(institution, step)
    requires RaisesBeforeMoving(s.content, home, stops, institution)
    ensures UntilRaised(s, stops, step).state == s
    decreases stops
  {
    var r := step(s, stops[0]);
    assert MakesOne(s, home, stops[0], institution, r);
    if r.ok { StuckMove(s, home, stops[1..], institution, step); }
  }

  /** A move that fails after its first object leaves some content without its object. */
  lemma {:induction false} FailedMove(s: State, home: map<int, string>, stops: seq<Stop>, institution: string,
                                      step: (State, Stop) -> Outcome) returns (b: int)
    requires GoodUnder(s, home) && AllIn(stops, s) && MakesEach(institution, step) && '/' !in institution
    requires !UntilRaised(s, stops, step).ok && !RaisesBeforeMoving(s.content, home, stops, institution)
    ensures b in s.content && b in s.bitstreams
    ensures KeyOf(s.bitstreams[b]) !in UntilRaised(s, stops, step).state.store
    decreases stops
  {
    var r := step(s, stops[0]);
    assert MakesOne(s, home, stops[0], institution, r);
    if stops[0].Check? || home[stops[0].id] == institution {
      b := FailedMove(s, home, stops[1..], institution, step);
    } else {
      b := stops[0].id;
      FirstKeyLost(s, home, stops, institution, step);
    }
  }

  lemma FirstKeyLost(s: State, home: map<int, string>, stops: seq<Stop>, institution: string,
                     step: (State, Stop) -> Outcome)
    requires GoodUnder(s, home) && AllIn(stops, s) && MakesEach(institution, step) && '/' !in institution
    requires stops != [] && stops[0].Rekey? && stops[0].id in s.bitstreams
    requires home[stops[0].id] != institution && stops[0].id in s.content
    ensures KeyOf(s.bitstreams[stops[0].id]) !in UntilRaised(s, stops, step).state.store
  {
    var id := stops[0].id;
    var r := step(s, stops[0]);
    RowKeyed(home, s.bitstreams, id);
    assert MakesOne(s, home, stops[0], institution, r);
    StopKeepsGood(s, home, stops[0], institution, r);
    FreeKeyRemains(r.state, home[id := institution], stops[1..], institution, step, home[id], s.bitstreams[id]);
  }

  /** A key given up in the old institution is not used again during the move. */
  lemma {:induction false} FreeKeyRemains(s: State, home: map<int, string>, stops: seq<Stop>, institution: string,
                                          step: (State, Stop) -> Outcome, formerHome: string, b: Bitstream)
    requires GoodUnder(s, home) && AllIn(stops, s) && MakesEach(institution, step)
    requires '/' !in formerHome && '/' !in institution && formerHome != institution
    requires Keyed(formerHome, b) && KeyOf(b) !in s.store
    ensures KeyOf(b) !in UntilRaised(s, stops, step).state.store
    decreases stops
  {
    if stops != [] {
      var r := step(s, stops[0]);
      assert MakesOne(s, home, stops[0], institution, r);
      StopKeepsGood(s, home, stops[0], institution, r);
      if stops[0].Rekey? { NotInKeyArea(formerHome, b, institution, s.bitstreams[stops[0].id]); }
      if r.ok {
        FreeKeyRemains(r.state, HomeAfter(home, stops[0], institution), stops[1..], institution, step, formerHome, b);
      }
    }
  }

  lemma NotInKeyArea(i1: string, b1: Bitstream, i2: string, b2: Bitstream)
    requires '/' !in i1 && '/' !in i2 && i1 != i2 && Keyed(i1, b1)
    ensures !InKeyArea(KeyOf(b1), i2, b2)
  {
    var archived := Archived(i2, b2);
    var staged := b2.(permanentKey := None, stagingKey := Some(StagingKey(i2, b2.item, b2.filename)));
    NotKeyIn(i1, b1, i2, archived);
    NotKeyIn(i1, b1, i2, staged);
  }

  /** The statements give a new key to exactly the bitstreams of the items. */
  ghost predicate Covers(s: State, items: set<nat>, stops: seq<Stop>) {
    && (forall i :: 0 <= i < |stops| && stops[i].Rekey? ==>
          stops[i].id in s.bitstreams && s.bitstreams[stops[i].id].item in items)
    && (forall b :: b in s.bitstreams && s.bitstreams[b].item in items ==> Rekey(b) in stops)
  }

  ghost predicate Relocated(s: State, items: set<nat>, stops: seq<Stop>, institution: string, r: Outcome) {
    && (r.ok <==> AllPass(s, HomeOf(s), stops, institution))
    && SameFiles(r.state.(institutionOf := s.institutionOf), s) && SameAreas(s, r.state)
    && (r.ok ==> Good(r.state) && r.state.institutionOf == Reassigned(s.institutionOf, items, institution))
    && (!r.ok ==> r.state == RolledBack(s, r.state))
    && (!r.ok ==> (Good(r.state) <==> RaisesBeforeMoving(s.content, HomeOf(s), stops, institution)))
  }

  /**
    A move between institutions goes through exactly when every statement does,
    a bitstream's when its object is there or need not move, and then keeps the
    invariant. When it fails, the invariant survives exactly when no object had
    been moved before the first statement that raised.
   */
  lemma RelocateKeepsGoodIff(s: State, items: set<nat>, stops: seq<Stop>, institution: string)
    requires Good(s) && '/' !in institution && items <= s.institutionOf.Keys && Covers(s, items, stops)
    ensures Relocated(s, items, stops, institution, Relocate(s, items, stops, institution))
  {
    var home := HomeOf(s);
    var s0 := s.(institutionOf := Reassigned(s.institutionOf, items, institution));
    var step := (t, stop) => MakeStop(t, stop, institution);
    MakeStopMakesEach(institution);
    EachKeepsGood(s0, home, stops, institution, step);
    var r := UntilRaised(s0, stops, step);
    if r.ok {
      HomesAfterMove(s, items, stops, institution, r.state);
    } else {
      FailureLeaves(s, s0, home, stops, institution, step);
    }
    RelocatedAs(s, items, stops, institution, s0, r);
  }

  lemma RelocatedAs(s: State, items: set<nat>, stops: seq<Stop>, institution: string, s0: State, r: Outcome)
    requires s0 == s.(institutionOf := Reassigned(s.institutionOf, items, institution))
    requires SameFiles(s0, r.state) && SameAreas(s0, r.state)
    requires r == MakeStops(s0, stops, institution)
    requires r.ok <==> AllPass(s, HomeOf(s), stops, institution)
    requires r.ok ==> Good(r.state)
    requires !r.ok ==> (Good(RolledBack(s, r.state)) <==> RaisesBeforeMoving(s.content, HomeOf(s), stops, institution))
    ensures Relocated(s, items, stops, institution, Relocate(s, items, stops, institution))
  {}

  /** A failed move leaves the rows as they were, and the invariant exactly when it moved nothing. */
  lemma FailureLeaves(s: State, s0: State, home: map<int, string>, stops: seq<Stop>, institution: string,
                      step: (State, Stop) -> Outcome)
    requires Good(s) && home == HomeOf(s) && s0 == s.(institutionOf := s0.institutionOf)
    requires GoodUnder(s0, home) && AllIn(stops, s0) && MakesEach(institution, step) && '/' !in institution
    requires !UntilRaised(s0, stops, step).ok
    ensures Good(RolledBack(s, UntilRaised(s0, stops, step).state)) <==>
            RaisesBeforeMoving(s.content, home, stops, institution)
  {
    var t := UntilRaised(s0, stops, step).state;
    if RaisesBeforeMoving(s.content, home, stops, institution) {
      StuckMove(s0, home, stops, institution, step);
      assert RolledBack(s, t) == s;
    } else {
      var b := FailedMove(s0, home, stops, institution, step);
      ObjectMissing(RolledBack(s, t), b);
    }
  }

  /** The rows are as they were, and one uploaded content is not at its key any more. */
  lemma FailedRelocationLoses(s: State, items: set<nat>, stops: seq<Stop>, institution: string) returns (b: int)
    requires Good(s) && '/' !in institution && items <= s.institutionOf.Keys && Covers(s, items, stops)
    requires !AllPass(s, HomeOf(s), stops, institution)
    requires !RaisesBeforeMoving(s.content, HomeOf(s), stops, institution)
    ensures !Relocate(s, items, stops, institution).ok
    ensures Relocate(s, items, stops, institution).state.bitstreams == s.bitstreams
    ensures b in s.content && b in s.bitstreams
    ensures KeyOf(s.bitstreams[b]) !in Relocate(s, items, stops, institution).state.store
  {
    var s0 := s.(institutionOf := Reassigned(s.institutionOf, items, institution));
    var step := (t, stop) => MakeStop(t, stop, institution);
    MakeStopMakesEach(institution);
    EachKeepsGood(s0, HomeOf(s), stops, institution, step);
    b := FailedMove(s0, HomeOf(s), stops, institution, step);
  }

  lemma HomesAfterMove(s: State, items: set<nat>, stops: seq<Stop>, institution: string, s': State)
    requires Good(s) && '/' !in institution && Covers(s, items, stops)
    requires SameFiles(s.(institutionOf := Reassigned(s.institutionOf, items, institution)), s')
    requires GoodUnder(s', HomesAfter(HomeOf(s), stops, institution))
    ensures Good(s')
  {
    var home := HomesAfter(HomeOf(s), stops, institution);
    forall b | b in s.bitstreams ensures s.bitstreams[b].item in s.institutionOf && home[b] == HomeOf(s')[b] {
      GoodRow(s, b);
    }
    forall b ensures b in home <==> b in HomeOf(s') {
      assert b in s'.bitstreams.Keys <==> b in s.bitstreams.Keys;
    }
    assert home == HomeOf(s');
  }

  // ----- the objects that a move touches -----

  /** One statement makes at most one call, and it is safe. */
  lemma StopCallsSafe(s: State, home: map<int, string>, stop: Stop, institution: string)
    requires GoodUnder(s, home) && StopIn(stop, s) && '/' !in institution
    ensures forall c :: c in StopCalls(s, stop, institution) ==> Safe(c)
  {
    if stop.Rekey? {
      var id := stop.id;
      var b, row := s.bitstreams[id], RowIn(institution, s.bitstreams[id]);
      RowKeyed(home, s.bitstreams, id);
      HomeInKey(home[id], institution, b);
      KeyedPresent(home[id], b);
      KeyedPresent(institution, row);
      if home[id] != institution {
        OwnNameFree(s, home, id);
        SaveKeepsGood(s, home, id, row, institution);
      }
    }
  }

  ghost predicate CallsSafely(institution: string, calls: (State, Stop) -> seq<Call>) {
    forall s: State, home, stop {:trigger GoodUnder(s, home), calls(s, stop)} ::
      GoodUnder(s, home) && StopIn(stop, s) ==> forall c :: c in calls(s, stop) ==> Safe(c)
  }

  lemma {:induction false} EachCallsSafely(s: State, home: map<int, string>, stops: seq<Stop>, institution: string,
                                           step: (State, Stop) -> Outcome, calls: (State, Stop) -> seq<Call>)
    requires GoodUnder(s, home) && AllIn(stops, s) && MakesEach(institution, step) && CallsSafely(institution, calls)
    ensures forall c :: c in CallsUntilRaised(s, stops, step, calls) ==> Safe(c)
    decreases stops
  {
    if stops != [] {
      var r := step(s, stops[0]);
      assert MakesOne(s, home, stops[0], institution, r);
      StopKeepsGood(s, home, stops[0], institution, r);
      assert forall c :: c in calls(s, stops[0]) ==> Safe(c);
      if r.ok {
        StillIn(s, r.state, stops);
        EachCallsSafely(r.state, HomeAfter(home, stops[0], institution), stops[1..], institution, step, calls);
      }
    }
  }

  /** Whether it goes through or fails half-way, a move never copies onto itself or over another object. */
  lemma RelocationCallsSafe(s: State, items: set<nat>, stops: seq<Stop>, institution: string)
    requires Good(s) && '/' !in institution && Covers(s, items, stops)
    ensures forall c :: c in RelocationCalls(s, items, stops, institution) ==> Safe(c)
  {
    var s0 := s.(institutionOf := Reassigned(s.institutionOf, items, institution));
    var step := (t, stop) => MakeStop(t, stop, institution);
    var calls := (t, stop) => StopCalls(t, stop, institution);
    MakeStopMakesEach(institution);
    forall t: State, home, stop | GoodUnder(t, home) && StopIn(stop, t)
      ensures forall c :: c in StopCalls(t, stop, institution) ==> Safe(c)
    {
      StopCallsSafe(t, home, stop, institution);
    }
    assert CallsSafely(institution, calls);
    EachCallsSafely(s0, HomeOf(s), stops, institution, step, calls);
  }
}
