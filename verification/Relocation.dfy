/**
  The loop that moves a unit's contents to another institution: collections and
  items are saved, the elements of an item are pointed to the destination's
  registry, and then its bitstreams get their new keys.
 */
module Relocation {
  import opened Admission
  import Burial
  import opened Migration
  import opened Storage
  import opened StorageMoves
  import opened StorageRuns

  // ----- what the loop visits -----

  /** A bitstream, and whether Medusa takes the messages before and after its key changes. */
  datatype FileVisit = FileVisit(id: int, released: bool, announced: bool)

  /** An item, whether its save and its event pass their validations, its elements and its bitstreams. */
  datatype ItemVisit = ItemVisit(saved: bool, loaded: ItemElements, files: seq<FileVisit>, logged: bool)

  datatype CollectionVisit = CollectionVisit(id: int, hasPrimaryUnit: bool, items: seq<ItemVisit>)

  datatype UnitVisit = UnitVisit(id: int, collections: seq<CollectionVisit>)

  /** A statement that can raise. */
  datatype Statement = Save(passes: bool) | Ascribe(element: int) | NewKey(id: int)

  function Each<V>(visits: seq<V>, statements: V -> seq<Statement>): seq<Statement> {
    if visits == [] then [] else statements(visits[0]) + Each(visits[1..], statements)
  }

  function OfFile(v: FileVisit): seq<Statement> {
    [Save(v.released), NewKey(v.id), Save(v.announced)]
  }

  /** The elements from the `i`-th on; one that equals an earlier one is gone when it is to be saved. */
  function OfElements(es: Elements, v: seq<ElementVisit>, i: nat): seq<Statement>
    requires i <= |v|
    decreases |v| - i
  {
    if i == |v| then []
    else [Ascribe(v[i].id), Save(v[i].saved && IsFirst(es, Ids(v), i))] + OfElements(es, v, i + 1)
  }

  function OfItem(es: Elements, v: ItemVisit): seq<Statement> {
    [Save(v.saved)] + OfElements(es, v.loaded.elements, 0) + Each(v.files, OfFile) + [Save(v.logged)]
  }

  function ItemOf(es: Elements): ItemVisit -> seq<Statement> {
    v => OfItem(es, v)
  }

  /** Whether a collection can be saved: not if it is buried with something live in it. */
  predicate CollectionSaves(flags: Burial.State, v: CollectionVisit) {
    v.hasPrimaryUnit && !Burial.SaveRefused(flags, Burial.C(v.id))
  }

  function OfCollection(flags: Burial.State, es: Elements, v: CollectionVisit): seq<Statement> {
    [Save(CollectionSaves(flags, v))] + Each(v.items, ItemOf(es))
  }

  function CollectionOf(flags: Burial.State, es: Elements): CollectionVisit -> seq<Statement> {
    v => OfCollection(flags, es, v)
  }

  function OfUnit(flags: Burial.State, es: Elements, v: UnitVisit): seq<Statement> {
    [Save(!Burial.SaveRefused(flags, Burial.U(v.id)))] + Each(v.collections, CollectionOf(flags, es))
  }

  function UnitOf(flags: Burial.State, es: Elements): UnitVisit -> seq<Statement> {
    v => OfUnit(flags, es, v)
  }

  /** The whole loop, in its order; an item in two collections is visited twice. */
  function Itinerary(flags: Burial.State, es: Elements, units: seq<UnitVisit>): seq<Statement> {
    Each(units, UnitOf(flags, es))
  }

  lemma {:induction false} EachAppend<V>(visits: seq<V>, more: seq<V>, statements: V -> seq<Statement>)
    ensures Each(visits + more, statements) == Each(visits, statements) + Each(more, statements)
  {
    if visits == [] {
      assert visits + more == more;
    } else {
      EachAppend(visits[1..], more, statements);
      assert (visits + more)[1..] == visits[1..] + more;
      Associative(statements(visits[0]), Each(visits[1..], statements), Each(more, statements));
    }
  }

  lemma EachNext<V>(visits: seq<V>, i: nat, statements: V -> seq<Statement>)
    requires i < |visits|
    ensures Each(visits[..i + 1], statements) == Each(visits[..i], statements) + statements(visits[i])
  {
    assert visits[..i + 1] == visits[..i] + [visits[i]];
    EachAppend(visits[..i], [visits[i]], statements);
    OneVisit(visits[i], statements);
  }

  lemma EachSplit<V>(visits: seq<V>, n: nat, statements: V -> seq<Statement>)
    requires n <= |visits|
    ensures Each(visits, statements) == Each(visits[..n], statements) + Each(visits[n..], statements)
  {
    assert visits == visits[..n] + visits[n..];
    EachAppend(visits[..n], visits[n..], statements);
  }

  lemma OneVisit<V>(v: V, statements: V -> seq<Statement>)
    ensures Each([v], statements) == statements(v)
  {}

  lemma {:induction false} InEach<V>(visits: seq<V>, statements: V -> seq<Statement>, x: Statement)
    ensures x in Each(visits, statements) <==> exists i :: 0 <= i < |visits| && x in statements(visits[i])
  {
    if visits != [] {
      InEach(visits[1..], statements, x);
      if x in Each(visits[1..], statements) {
        var i :| 0 <= i < |visits[1..]| && x in statements(visits[1..][i]);
        assert visits[i + 1] == visits[1..][i];
      }
      if i :| 0 < i < |visits| && x in statements(visits[i]) {
        assert visits[1..][i - 1] == visits[i];
      }
    }
  }

  // ----- when no save is refused -----

  predicate FilePasses(v: FileVisit) { v.released && v.announced }

  /** Its own flags, those of its elements and files, and no two equal elements. */
  predicate ItemPasses(es: Elements, v: ItemVisit) {
    && v.saved && v.logged
    && AllSaved(v.loaded.elements) && NoTwins(es, Ids(v.loaded.elements))
    && forall i :: 0 <= i < |v.files| ==> FilePasses(v.files[i])
  }

  predicate CollectionPasses(flags: Burial.State, es: Elements, v: CollectionVisit) {
    CollectionSaves(flags, v) && forall i :: 0 <= i < |v.items| ==> ItemPasses(es, v.items[i])
  }

  predicate UnitPasses(flags: Burial.State, es: Elements, v: UnitVisit) {
    && !Burial.SaveRefused(flags, Burial.U(v.id))
    && forall i :: 0 <= i < |v.collections| ==> CollectionPasses(flags, es, v.collections[i])
  }

  /** No flag is down, nothing visited is buried with something live in it, and no item has two equal elements. */
  predicate VisitsPass(flags: Burial.State, es: Elements, units: seq<UnitVisit>) {
    forall i :: 0 <= i < |units| ==> UnitPasses(flags, es, units[i])
  }

  lemma {:induction false} ElementsPassIff(es: Elements, v: seq<ElementVisit>, n: nat)
    requires n <= |v|
    ensures Save(false) in OfElements(es, v, n) <==>
            exists i :: n <= i < |v| && !(v[i].saved && IsFirst(es, Ids(v), i))
    decreases |v| - n
  {
    if n < |v| { ElementsPassIff(es, v, n + 1); }
  }

  lemma ItemPassesIff(es: Elements, v: ItemVisit)
    ensures Save(false) in OfItem(es, v) <==> !ItemPasses(es, v)
  {
    InEach(v.files, OfFile, Save(false));
    forall i | 0 <= i < |v.files| ensures Save(false) in OfFile(v.files[i]) <==> !FilePasses(v.files[i]) {}
    ElementsPassIff(es, v.loaded.elements, 0);
  }

  lemma CollectionPassesIff(flags: Burial.State, es: Elements, v: CollectionVisit)
    ensures Save(false) in OfCollection(flags, es, v) <==> !CollectionPasses(flags, es, v)
  {
    InEach(v.items, ItemOf(es), Save(false));
    forall i | 0 <= i < |v.items| ensures Save(false) in ItemOf(es)(v.items[i]) <==> !ItemPasses(es, v.items[i]) {
      ItemPassesIff(es, v.items[i]);
    }
  }

  lemma UnitPassesIff(flags: Burial.State, es: Elements, v: UnitVisit)
    ensures Save(false) in OfUnit(flags, es, v) <==> !UnitPasses(flags, es, v)
  {
    InEach(v.collections, CollectionOf(flags, es), Save(false));
    forall i | 0 <= i < |v.collections|
      ensures Save(false) in CollectionOf(flags, es)(v.collections[i]) <==>
              !CollectionPasses(flags, es, v.collections[i])
    {
      CollectionPassesIff(flags, es, v.collections[i]);
    }
  }

  /** Buried with something live in it. */
  ghost predicate Stuck(flags: Burial.State, p: Burial.Entity) {
    && Burial.Exists(flags, p) && !Burial.Live(flags, p)
    && exists e :: Burial.Live(flags, e) && Burial.Under(flags, e, p)
  }

  lemma ItemPassesMeans(es: Elements, v: ItemVisit)
    ensures ItemPasses(es, v) <==>
            && v.saved && v.logged && NoTwins(es, Ids(v.loaded.elements))
            && (forall x :: x in v.loaded.elements ==> x.saved)
            && (forall x :: x in v.files ==> x.released && x.announced)
  {}

  lemma CollectionPassesMeans(flags: Burial.State, es: Elements, v: CollectionVisit)
    ensures CollectionPasses(flags, es, v) <==>
            v.hasPrimaryUnit && !Stuck(flags, Burial.C(v.id)) && forall x :: x in v.items ==> ItemPasses(es, x)
  {
    Burial.SaveRefusedIff(flags, Burial.C(v.id));
  }

  /** In terms of the flags and rows: what a unit and its contents need to be visited without a refusal. */
  lemma UnitPassesMeans(flags: Burial.State, es: Elements, v: UnitVisit)
    ensures UnitPasses(flags, es, v) <==>
            && !Stuck(flags, Burial.U(v.id))
            && (forall c :: c in v.collections ==> c.hasPrimaryUnit && !Stuck(flags, Burial.C(c.id)))
            && (forall c, i :: c in v.collections && i in c.items ==>
                  && i.saved && i.logged && NoTwins(es, Ids(i.loaded.elements))
                  && (forall x :: x in i.loaded.elements ==> x.saved)
                  && (forall x :: x in i.files ==> x.released && x.announced))
  {
    Burial.SaveRefusedIff(flags, Burial.U(v.id));
    forall c ensures CollectionPasses(flags, es, c) <==>
                     c.hasPrimaryUnit && !Stuck(flags, Burial.C(c.id)) && forall x :: x in c.items ==> ItemPasses(es, x)
    {
      CollectionPassesMeans(flags, es, c);
    }
    forall i ensures ItemPasses(es, i) <==>
                     && i.saved && i.logged && NoTwins(es, Ids(i.loaded.elements))
                     && (forall x :: x in i.loaded.elements ==> x.saved)
                     && (forall x :: x in i.files ==> x.released && x.announced)
    {
      ItemPassesMeans(es, i);
    }
    assert (forall k :: 0 <= k < |v.collections| ==> CollectionPasses(flags, es, v.collections[k])) <==>
           (forall c :: c in v.collections ==> CollectionPasses(flags, es, c));
  }

  /** Each element is pointed to its new registered element and then saved, unless it equals an earlier one. */
  lemma ElementsRead(es: Elements, a: ElementVisit, b: ElementVisit)
    ensures OfElements(es, [a, b], 0) ==
            [Ascribe(a.id), Save(a.saved), Ascribe(b.id), Save(b.saved && !SameElement(es, a.id, b.id))]
  {
    var v := [a, b];
    assert Ids(v)[0] == a.id && Ids(v)[1] == b.id;
    assert OfElements(es, v, 2) == [];
    assert OfElements(es, v, 1) == [Ascribe(b.id), Save(b.saved && IsFirst(es, Ids(v), 1))];
  }

  /** An item is saved before its elements, they before its files, and its event comes last. */
  lemma ItemReads(es: Elements, saved: bool, loaded: ItemElements, file: FileVisit, logged: bool)
    ensures OfItem(es, ItemVisit(saved, loaded, [file], logged)) ==
            [Save(saved)] + OfElements(es, loaded.elements, 0)
            + [Save(file.released), NewKey(file.id), Save(file.announced), Save(logged)]
  {
    OneVisit(file, OfFile);
  }

  /** A unit is saved before its collections, and a collection before its items. */
  lemma ItineraryReads(flags: Burial.State, es: Elements, u: int, c: int, primary: bool, item: ItemVisit)
    ensures Itinerary(flags, es, [UnitVisit(u, [CollectionVisit(c, primary, [item])])]) ==
            [Save(!Burial.SaveRefused(flags, Burial.U(u))), Save(primary && !Burial.SaveRefused(flags, Burial.C(c)))]
            + OfItem(es, item)
  {
    var collection := CollectionVisit(c, primary, [item]);
    OneVisit(item, ItemOf(es));
    OneVisit(collection, CollectionOf(flags, es));
    OneVisit(UnitVisit(u, [collection]), UnitOf(flags, es));
  }

  /** No statement of the itinerary is refused on its own account exactly when the visits pass. */
  lemma VisitsPassIff(flags: Burial.State, es: Elements, units: seq<UnitVisit>)
    ensures Save(false) !in Itinerary(flags, es, units) <==> VisitsPass(flags, es, units)
  {
    InEach(units, UnitOf(flags, es), Save(false));
    forall i | 0 <= i < |units|
      ensures Save(false) in UnitOf(flags, es)(units[i]) <==> !UnitPasses(flags, es, units[i])
    {
      UnitPassesIff(flags, es, units[i]);
    }
  }

  // ----- what the stored objects see of it -----

  function ElementIds(statements: seq<Statement>): seq<int> {
    if statements == [] then []
    else if statements[0].Ascribe? then [statements[0].element] + ElementIds(statements[1..])
    else ElementIds(statements[1..])
  }

  function StopOf(l: Ledger, r: Registry, es: Elements, statement: Statement): Stop {
    match statement
    case Save(passes) => Check(passes)
    case Ascribe(e) => Check(Admits(l, RegisteredOf(r, es, e)))
    case NewKey(id) => Rekey(id)
  }

  function LedgerAfter(l: Ledger, r: Registry, es: Elements, statement: Statement): Ledger {
    if statement.Ascribe? then Entered(l, RegisteredOf(r, es, statement.element)) else l
  }

  /** Each statement, with whether it goes through after those before it. */
  function Stops(l: Ledger, r: Registry, es: Elements, statements: seq<Statement>): seq<Stop>
    decreases statements
  {
    if statements == [] then []
    else [StopOf(l, r, es, statements[0])] + Stops(LedgerAfter(l, r, es, statements[0]), r, es, statements[1..])
  }

  /** Every object that has to move is there. */
  ghost predicate ObjectsThere(s: State, home: map<int, string>, statements: seq<Statement>, institution: string) {
    forall b :: NewKey(b) in statements ==> b in home && Movable(s, home, b, institution)
  }

  lemma WantedCons(r: Registry, es: Elements, e: int, ids: seq<int>)
    ensures Wanted(r, es, [e] + ids) == [RegisteredOf(r, es, e)] + Wanted(r, es, ids)
  {}

  lemma {:induction false} StopsPass(s: State, home: map<int, string>, l: Ledger, r: Registry, es: Elements,
                                     statements: seq<Statement>, institution: string)
    ensures AllPass(s, home, Stops(l, r, es, statements), institution) <==>
            && Save(false) !in statements
            && AllAdmitted(l, Wanted(r, es, ElementIds(statements)))
            && ObjectsThere(s, home, statements, institution)
    decreases statements
  {
    if statements != [] {
      var first, rest := statements[0], statements[1..];
      var l' := LedgerAfter(l, r, es, first);
      StopsPass(s, home, l', r, es, rest, institution);
      assert statements == [first] + rest;
      PassCons(s, home, StopOf(l, r, es, first), Stops(l', r, es, rest), institution);
      if first.Ascribe? {
        WantedCons(r, es, first.element, ElementIds(rest));
      }
    }
  }

  lemma PassCons(s: State, home: map<int, string>, stop: Stop, stops: seq<Stop>, institution: string)
    ensures AllPass(s, home, [stop] + stops, institution) <==>
            Passes(s, home, stop, institution) && AllPass(s, home, stops, institution)
  {
    var all := [stop] + stops;
    if AllPass(s, home, all, institution) {
      assert Passes(s, home, all[0], institution);
      forall i | 0 <= i < |stops| ensures Passes(s, home, stops[i], institution) {
        assert Passes(s, home, all[i + 1], institution);
      }
    }
  }

  /** The condition of a move, which a caller can check beforehand. */
  ghost predicate CanMove(s: State, r: Registry, es: Elements, flags: Burial.State, units: seq<UnitVisit>, dest: int,
                          key: string, note: string)
  {
    && VisitsPass(flags, es, units)
    && Fits(LedgerOf(r, dest, note), Wanted(r, es, ElementIds(Itinerary(flags, es, units))))
    && ObjectsThere(s, HomeOf(s), Itinerary(flags, es, units), key)
  }

  /** The stops of a whole move. */
  function MoveStops(r: Registry, es: Elements, flags: Burial.State, units: seq<UnitVisit>, dest: int,
                     note: string): seq<Stop>
  {
    Stops(LedgerOf(r, dest, note), r, es, Itinerary(flags, es, units))
  }

  lemma AllPassIff(s: State, r: Registry, es: Elements, flags: Burial.State, units: seq<UnitVisit>, dest: int,
                   key: string, note: string)
    ensures AllPass(s, HomeOf(s), MoveStops(r, es, flags, units, dest, note), key) <==>
            CanMove(s, r, es, flags, units, dest, key, note)
  {
    var l, statements := LedgerOf(r, dest, note), Itinerary(flags, es, units);
    StopsPass(s, HomeOf(s), l, r, es, statements, key);
    AdmittedIffFits(l, Wanted(r, es, ElementIds(statements)));
    VisitsPassIff(flags, es, units);
  }

  /**
    The move goes through exactly when no visit is refused, every name that has
    to be entered at the destination comes with an unused URI and a note that
    fits, and every object that has to move is there. When it fails, the storage
    invariant survives exactly when no object had moved before the first
    statement that raised.
   */
  lemma MoveGoesThroughIff(s: State, r: Registry, es: Elements, items: set<nat>, flags: Burial.State,
                           units: seq<UnitVisit>, dest: int, key: string, note: string)
    requires Good(s) && WellFormed(s, MoveTo(items, MoveStops(r, es, flags, units, dest, note), key))
    ensures var stops := MoveStops(r, es, flags, units, dest, note);
            var moved := Relocate(s, items, stops, key);
            && (moved.ok <==> CanMove(s, r, es, flags, units, dest, key, note))
            && (moved.ok ==> Good(moved.state))
            && (!moved.ok ==> (Good(moved.state) <==> RaisesBeforeMoving(s.content, HomeOf(s), stops, key)))
  {
    RelocateKeepsGoodIff(s, items, MoveStops(r, es, flags, units, dest, note), key);
    AllPassIff(s, r, es, flags, units, dest, key, note);
  }

  /** Elements that come from one institution fit exactly when each is admitted by itself. */
  lemma MoveFromOneSourceIff(s: State, r: Registry, es: Elements, flags: Burial.State, units: seq<UnitVisit>,
                             source: int, dest: int, key: string, note: string)
    requires Unique(r) && NamesKnown(r, es)
    requires forall e :: e in ElementIds(Itinerary(flags, es, units)) ==>
               e in es && RegisteredOf(r, es, e).institution == source
    ensures CanMove(s, r, es, flags, units, dest, key, note) <==>
            && VisitsPass(flags, es, units)
            && (forall e :: e in ElementIds(Itinerary(flags, es, units)) ==>
                  Admits(LedgerOf(r, dest, note), RegisteredOf(r, es, e)))
            && ObjectsThere(s, HomeOf(s), Itinerary(flags, es, units), key)
  {
    var l, ids := LedgerOf(r, dest, note), ElementIds(Itinerary(flags, es, units));
    var xs := Wanted(r, es, ids);
    OneSourceFitsIff(l, xs, source);
    AdmittedIffFits(l, xs);
    if forall i :: 0 <= i < |xs| ==> Admits(l, xs[i]) {
      forall e | e in ids ensures Admits(l, RegisteredOf(r, es, e)) {
        var i :| 0 <= i < |ids| && ids[i] == e;
        assert Admits(l, xs[i]);
      }
    }
  }

  /** What `Careful` asks of such a move. */
  lemma CarefulMoveIff(s: State, r: Registry, es: Elements, items: set<nat>, flags: Burial.State,
                       units: seq<UnitVisit>, dest: int, key: string, note: string)
    ensures var stops := MoveStops(r, es, flags, units, dest, note);
            Careful(s, MoveTo(items, stops, key)) <==>
            || CanMove(s, r, es, flags, units, dest, key, note)
            || RaisesBeforeMoving(s.content, HomeOf(s), stops, key)
  {
    AllPassIff(s, r, es, flags, units, dest, key, note);
  }

  /** The stops give a new key to the same bitstreams as the statements. */
  lemma {:induction false} StopsKeys(l: Ledger, r: Registry, es: Elements, statements: seq<Statement>)
    ensures forall b :: Rekey(b) in Stops(l, r, es, statements) <==> NewKey(b) in statements
    decreases statements
  {
    if statements != [] {
      var first, rest := statements[0], statements[1..];
      var l' := LedgerAfter(l, r, es, first);
      StopsKeys(l', r, es, rest);
      assert forall x :: x in statements <==> x == first || x in rest;
      assert forall x :: x in Stops(l, r, es, statements) <==>
                         x == StopOf(l, r, es, first) || x in Stops(l', r, es, rest);
    }
  }

  /** A move whose first key change needs and finds an object can only raise after that. */
  lemma {:induction false} MovesFirst(content: map<int, Content>, home: map<int, string>, l: Ledger, r: Registry,
                                      es: Elements, before: seq<Statement>, b: int, after: seq<Statement>,
                                      institution: string)
    requires forall i :: 0 <= i < |before| ==> before[i] == Save(true)
    requires b in home && home[b] != institution && b in content
    ensures !RaisesBeforeMoving(content, home, Stops(l, r, es, before + [NewKey(b)] + after), institution)
    decreases before
  {
    var all := before + [NewKey(b)] + after;
    if before == [] {
      assert all[0] == NewKey(b);
    } else {
      assert all[0] == Save(true) && all[1..] == before[1..] + [NewKey(b)] + after;
      MovesFirst(content, home, l, r, es, before[1..], b, after, institution);
      assert all[0..] == all;
    }
  }

  // ----- the loop -----

  lemma {:induction false} UntilRaisedAppend(s: State, xs: seq<Stop>, ys: seq<Stop>, key: string)
    ensures var r := MakeStops(s, xs, key);
            MakeStops(s, xs + ys, key) == if r.ok then MakeStops(r.state, ys, key) else r
    decreases xs
  {
    if xs == [] {
      assert xs + ys == ys;
    } else {
      var r := MakeStop(s, xs[0], key);
      assert (xs + ys)[1..] == xs[1..] + ys;
      if r.ok { UntilRaisedAppend(r.state, xs[1..], ys, key); }
    }
  }

  /** The ledger after a list of statements. */
  function Through(l: Ledger, r: Registry, es: Elements, statements: seq<Statement>): Ledger {
    AllEntered(l, Wanted(r, es, ElementIds(statements)))
  }

  lemma {:induction false} StopsAppend(l: Ledger, r: Registry, es: Elements, xs: seq<Statement>, ys: seq<Statement>)
    ensures Stops(l, r, es, xs + ys) == Stops(l, r, es, xs) + Stops(Through(l, r, es, xs), r, es, ys)
    decreases xs
  {
    if xs == [] {
      assert xs + ys == ys;
    } else {
      StopsAppend(LedgerAfter(l, r, es, xs[0]), r, es, xs[1..], ys);
      assert (xs + ys)[1..] == xs[1..] + ys;
      ThroughCons(l, r, es, xs);
    }
  }

  lemma ThroughCons(l: Ledger, r: Registry, es: Elements, xs: seq<Statement>)
    requires xs != []
    ensures Through(l, r, es, xs) == Through(LedgerAfter(l, r, es, xs[0]), r, es, xs[1..])
  {
    if xs[0].Ascribe? {
      WantedCons(r, es, xs[0].element, ElementIds(xs[1..]));
      var ws := Wanted(r, es, ElementIds(xs[1..]));
      assert ([RegisteredOf(r, es, xs[0].element)] + ws)[1..] == ws;
    }
  }

  /** The rows and objects of bitstreams are what the statements make of them. */
  ghost predicate Performs(s: State, s': State, ok: bool, l: Ledger, r: Registry, es: Elements,
                           statements: seq<Statement>, key: string)
  {
    Outcome(s', ok) == MakeStops(s, Stops(l, r, es, statements), key)
  }

  lemma PerformsNext(s: State, s1: State, s2: State, ok: bool, l: Ledger, r: Registry, es: Elements,
                     xs: seq<Statement>, ys: seq<Statement>, key: string)
    requires Performs(s, s1, true, l, r, es, xs, key) && Performs(s1, s2, ok, Through(l, r, es, xs), r, es, ys, key)
    ensures Performs(s, s2, ok, l, r, es, xs + ys, key)
  {
    StopsAppend(l, r, es, xs, ys);
    UntilRaisedAppend(s, Stops(l, r, es, xs), Stops(Through(l, r, es, xs), r, es, ys), key);
  }

  /** What comes after a statement that raised does not matter. */
  lemma PerformsNot(s: State, s1: State, l: Ledger, r: Registry, es: Elements, xs: seq<Statement>,
                    ys: seq<Statement>, key: string)
    requires Performs(s, s1, false, l, r, es, xs, key)
    ensures Performs(s, s1, false, l, r, es, xs + ys, key)
  {
    StopsAppend(l, r, es, xs, ys);
    UntilRaisedAppend(s, Stops(l, r, es, xs), Stops(Through(l, r, es, xs), r, es, ys), key);
  }

  /** A single statement. */
  lemma PerformsOne(s: State, s': State, ok: bool, l: Ledger, r: Registry, es: Elements, x: Statement, key: string)
    requires Outcome(s', ok) == MakeStop(s, StopOf(l, r, es, x), key)
    ensures Performs(s, s', ok, l, r, es, [x], key)
  {
    var stop := StopOf(l, r, es, x);
    assert [x][1..] == [] && Stops(l, r, es, [x]) == [stop];
    assert [stop][1..] == [];
    UntilRaisedEmpty(s', key);
  }

  lemma UntilRaisedEmpty(s: State, key: string)
    ensures MakeStops(s, [], key) == Outcome(s, true)
  {}

  /** Statements that touch no object pass all together or leave everything as it was. */
  lemma {:induction false} WithoutKeys(s: State, l: Ledger, r: Registry, es: Elements, xs: seq<Statement>, key: string)
    requires forall x :: x in xs ==> !x.NewKey?
    ensures Performs(s, s, Save(false) !in xs && AllAdmitted(l, Wanted(r, es, ElementIds(xs))), l, r, es, xs, key)
    decreases xs
  {
    if xs != [] {
      var l' := LedgerAfter(l, r, es, xs[0]);
      assert forall x :: x in xs <==> x == xs[0] || x in xs[1..];
      WithoutKeys(s, l', r, es, xs[1..], key);
      if xs[0].Ascribe? {
        WantedCons(r, es, xs[0].element, ElementIds(xs[1..]));
      }
    }
  }

  lemma {:induction false} ElementsOf(es: Elements, v: seq<ElementVisit>, n: nat)
    requires n <= |v|
    ensures ElementIds(OfElements(es, v, n)) == Ids(v)[n..]
    ensures forall x :: x in OfElements(es, v, n) ==> !x.NewKey?
    decreases |v| - n
  {
    if n < |v| {
      ElementsOf(es, v, n + 1);
      assert Ids(v)[n..] == [v[n].id] + Ids(v)[n + 1..];
    } else {
      assert Ids(v)[n..] == [];
    }
  }

  lemma PerformsElements(s: State, l: Ledger, r: Registry, es: Elements, v: ItemElements, key: string)
    ensures Performs(s, s, VisitPasses(l, r, es, v), l, r, es, OfElements(es, v.elements, 0), key)
    ensures ElementIds(OfElements(es, v.elements, 0)) == Ids(v.elements)
  {
    ElementsOf(es, v.elements, 0);
    assert Ids(v.elements)[0..] == Ids(v.elements);
    ElementsPassIff(es, v.elements, 0);
    WithoutKeys(s, l, r, es, OfElements(es, v.elements, 0), key);
  }

  lemma {:induction false} ElementIdsAppend(xs: seq<Statement>, ys: seq<Statement>)
    ensures ElementIds(xs + ys) == ElementIds(xs) + ElementIds(ys)
  {
    if xs == [] {
      assert xs + ys == ys;
    } else {
      ElementIdsAppend(xs[1..], ys);
      assert (xs + ys)[1..] == xs[1..] + ys;
      if xs[0].Ascribe? { Associative([xs[0].element], ElementIds(xs[1..]), ElementIds(ys)); }
    }
  }

  lemma {:induction false} NoElements(xs: seq<Statement>)
    requires forall x :: x in xs ==> !x.Ascribe?
    ensures ElementIds(xs) == []
  {
    if xs != [] { NoElements(xs[1..]); }
  }

  lemma ThroughAppend(l: Ledger, r: Registry, es: Elements, xs: seq<Statement>, ys: seq<Statement>)
    ensures Through(l, r, es, xs + ys) == Through(Through(l, r, es, xs), r, es, ys)
    ensures ElementIds(xs + ys) == ElementIds(xs) + ElementIds(ys)
  {
    ElementIdsAppend(xs, ys);
    AdmittedThrough(l, r, es, ElementIds(xs), ElementIds(ys));
  }

  /** One more round of a loop over visits. */
  lemma RoundPerforms<V>(start: State, s1: State, s2: State, ok: bool, l: Ledger, r: Registry, es: Elements,
                         visits: seq<V>, i: nat, statements: V -> seq<Statement>, key: string)
    requires i < |visits| && Performs(start, s1, true, l, r, es, Each(visits[..i], statements), key)
    requires Performs(s1, s2, ok, Through(l, r, es, Each(visits[..i], statements)), r, es, statements(visits[i]), key)
    ensures Performs(start, s2, ok, l, r, es, Each(visits[..i + 1], statements), key)
  {
    PerformsNext(start, s1, s2, ok, l, r, es, Each(visits[..i], statements), statements(visits[i]), key);
    EachNext(visits, i, statements);
  }

  /** A round that raises ends the loop. */
  lemma RoundRaises<V>(start: State, s: State, l: Ledger, r: Registry, es: Elements, visits: seq<V>, n: nat,
                       statements: V -> seq<Statement>, key: string)
    requires n <= |visits| && Performs(start, s, false, l, r, es, Each(visits[..n], statements), key)
    ensures Performs(start, s, false, l, r, es, Each(visits, statements), key)
  {
    EachSplit(visits, n, statements);
    PerformsNot(start, s, l, r, es, Each(visits[..n], statements), Each(visits[n..], statements), key);
  }

  lemma RoundThrough<V>(l: Ledger, r: Registry, es: Elements, visits: seq<V>, i: nat, statements: V -> seq<Statement>)
    requires i < |visits|
    ensures Through(l, r, es, Each(visits[..i + 1], statements)) ==
            Through(Through(l, r, es, Each(visits[..i], statements)), r, es, statements(visits[i]))
    ensures ElementIds(Each(visits[..i + 1], statements)) ==
            ElementIds(Each(visits[..i], statements)) + ElementIds(statements(visits[i]))
  {
    EachNext(visits, i, statements);
    ThroughAppend(l, r, es, Each(visits[..i], statements), statements(visits[i]));
  }

  lemma NoRounds<V>(s: State, l: Ledger, r: Registry, es: Elements, visits: seq<V>, statements: V -> seq<Statement>,
                    key: string)
    ensures Each(visits[..0], statements) == []
    ensures Performs(s, s, true, l, r, es, [], key) && Through(l, r, es, []) == l
  {}
}
