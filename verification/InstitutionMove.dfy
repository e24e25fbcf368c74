/** `move_to`: a unit and everything below it goes to another institution, in one loop over all the tables. */
module InstitutionMove {
  import opened Admission
  import Burial
  import opened Forest
  import opened Migration
  import opened Relocation
  import opened Repository
  import opened Storage
  import opened StorageMoves
  import opened StorageRuns
  import opened Text
  import opened Units
  import opened Wrappers

  datatype Institution = Institution(id: int, key: string, name: string)

  datatype MoveError = InstitutionMissing | UserMissing | SameInstitution | TitleTaken | DetachRefused | LoopRaised

  // ----- the contents of a unit -----

  /** Where the loop is: the elements `done` of the original tables have been moved. */
  ghost predicate Reached(metadata: MetadataTables, r: Registry, es: Elements, done: seq<int>, dest: int, note: string,
                          l: Ledger)
    reads metadata
  {
    metadata.HaveMoved(r, es, done, dest) && Whole(es, done) && LedgerOf(metadata.registry, dest, note) == l
  }

  method MoveFile(files: BitstreamTable, v: FileVisit, key: string, ghost l: Ledger, ghost r: Registry,
                  ghost es: Elements)
    returns (ok: bool)
    modifies files`bitstreams, files.store
    ensures Performs(old(files.Now()), files.Now(), ok, l, r, es, OfFile(v), key)
  {
    ghost var s := files.Now();
    FileElements(v);
    PerformsOne(s, s, v.released, l, r, es, Save(v.released), key);
    if !v.released {
      PerformsNot(s, s, l, r, es, [Save(v.released)], [NewKey(v.id), Save(v.announced)], key);
      assert OfFile(v) == [Save(v.released)] + [NewKey(v.id), Save(v.announced)];
      return false;
    }
    ok := files.RehomeOne(v.id, key);
    PerformsOne(s, files.Now(), ok, l, r, es, NewKey(v.id), key);
    PerformsNext(s, s, files.Now(), ok, l, r, es, [Save(v.released)], [NewKey(v.id)], key);
    if !ok {
      PerformsNot(s, files.Now(), l, r, es, [Save(v.released)] + [NewKey(v.id)], [Save(v.announced)], key);
      assert OfFile(v) == [Save(v.released)] + [NewKey(v.id)] + [Save(v.announced)];
      return;
    }
    PerformsOne(files.Now(), files.Now(), v.announced, l, r, es, Save(v.announced), key);
    PerformsNext(s, files.Now(), files.Now(), v.announced, l, r, es, [Save(v.released)] + [NewKey(v.id)],
                 [Save(v.announced)], key);
    assert OfFile(v) == [Save(v.released)] + [NewKey(v.id)] + [Save(v.announced)];
    ok := v.announced;
  }

  lemma FileElements(v: FileVisit)
    ensures ElementIds(OfFile(v)) == [] && ElementIds([Save(v.released)]) == []
    ensures ElementIds([Save(v.released)] + [NewKey(v.id)]) == []
  {
    NoElements(OfFile(v));
    NoElements([Save(v.released)]);
    NoElements([Save(v.released)] + [NewKey(v.id)]);
  }

  lemma {:induction false} FilesHaveNoElements(visits: seq<FileVisit>, l: Ledger, r: Registry, es: Elements)
    ensures ElementIds(Each(visits, OfFile)) == [] && Through(l, r, es, Each(visits, OfFile)) == l
  {
    if visits != [] {
      FilesHaveNoElements(visits[1..], l, r, es);
      FileElements(visits[0]);
      ElementIdsAppend(OfFile(visits[0]), Each(visits[1..], OfFile));
    }
  }

  method MoveFiles(files: BitstreamTable, visits: seq<FileVisit>, key: string, ghost l: Ledger, ghost r: Registry,
                   ghost es: Elements)
    returns (ok: bool)
    modifies files`bitstreams, files.store
    ensures Performs(old(files.Now()), files.Now(), ok, l, r, es, Each(visits, OfFile), key)
  {
    ghost var start := files.Now();
    NoRounds(start, l, r, es, visits, OfFile, key);
    for i := 0 to |visits|
      invariant Performs(start, files.Now(), true, l, r, es, Each(visits[..i], OfFile), key)
    {
      ghost var s := files.Now();
      FilesHaveNoElements(visits[..i], l, r, es);
      ok := MoveFile(files, visits[i], key, l, r, es);
      RoundPerforms(start, s, files.Now(), ok, l, r, es, visits, i, OfFile, key);
      if !ok {
        RoundRaises(start, files.Now(), l, r, es, visits, i + 1, OfFile, key);
        return;
      }
    }
    assert visits[..|visits|] == visits;
    ok := true;
  }

  /** One item: its save, which deletes duplicate elements, then its elements, then its bitstreams. */
  method MoveItem(files: BitstreamTable, metadata: MetadataTables, v: ItemVisit, dest: int, key: string, note: string,
                  ghost r: Registry, ghost es: Elements, ghost done: seq<int>, ghost l: Ledger)
    returns (ok: bool)
    requires Reached(metadata, r, es, done, dest, note, l) && Loads(es, v.loaded)
    modifies files`bitstreams, files.store, metadata
    ensures Performs(old(files.Now()), files.Now(), ok, l, r, es, OfItem(es, v), key)
    ensures ok ==> Reached(metadata, r, es, done + ElementIds(OfItem(es, v)), dest, note,
                           Through(l, r, es, OfItem(es, v)))
  {
    ghost var start := files.Now();
    ghost var a, b := [Save(v.saved)] + OfElements(es, v.loaded.elements, 0), Each(v.files, OfFile);
    ItemElementIds(es, v, l, r);
    ItemRows(start, l, r, es, v, key);
    ok := v.saved;
    if ok { ok := metadata.MoveItem(v.loaded, dest, note, r, es, done); }
    if !ok {
      PerformsNot(start, start, l, r, es, a, b + [Save(v.logged)], key);
      assert OfItem(es, v) == a + (b + [Save(v.logged)]);
      return;
    }
    ghost var l' := Through(l, r, es, a);
    ok := MoveFiles(files, v.files, key, l', r, es);
    ItemFiles(start, files.Now(), ok, l, r, es, v, key);
    if ok { ok := v.logged; }
  }

  /** The statements about an item's own row and its elements. */
  lemma ItemRows(s: State, l: Ledger, r: Registry, es: Elements, v: ItemVisit, key: string)
    ensures Performs(s, s, v.saved && VisitPasses(l, r, es, v.loaded), l, r, es,
                     [Save(v.saved)] + OfElements(es, v.loaded.elements, 0), key)
  {
    NoElements([Save(v.saved)]);
    PerformsOne(s, s, v.saved, l, r, es, Save(v.saved), key);
    PerformsElements(s, l, r, es, v.loaded, key);
    if v.saved {
      PerformsNext(s, s, s, VisitPasses(l, r, es, v.loaded), l, r, es, [Save(v.saved)],
                   OfElements(es, v.loaded.elements, 0), key);
    } else {
      PerformsNot(s, s, l, r, es, [Save(v.saved)], OfElements(es, v.loaded.elements, 0), key);
    }
  }

  /** Then those about its bitstreams, and its event. */
  lemma ItemFiles(s: State, s1: State, ok: bool, l: Ledger, r: Registry, es: Elements, v: ItemVisit, key: string)
    requires v.saved && VisitPasses(l, r, es, v.loaded)
    requires var a := [Save(v.saved)] + OfElements(es, v.loaded.elements, 0);
             Performs(s, s1, ok, Through(l, r, es, a), r, es, Each(v.files, OfFile), key)
    ensures Performs(s, s1, ok && v.logged, l, r, es, OfItem(es, v), key)
  {
    var a, b := [Save(v.saved)] + OfElements(es, v.loaded.elements, 0), Each(v.files, OfFile);
    ItemRows(s, l, r, es, v, key);
    PerformsNext(s, s, s1, ok, l, r, es, a, b, key);
    if ok {
      PerformsOne(s1, s1, v.logged, Through(l, r, es, a + b), r, es, Save(v.logged), key);
      PerformsNext(s, s1, s1, v.logged, l, r, es, a + b, [Save(v.logged)], key);
    } else {
      PerformsNot(s, s1, l, r, es, a + b, [Save(v.logged)], key);
    }
  }

  lemma ItemElementIds(es: Elements, v: ItemVisit, l: Ledger, r: Registry)
    ensures ElementIds(OfItem(es, v)) == Ids(v.loaded.elements)
    ensures Through(l, r, es, OfItem(es, v)) == AllEntered(l, Wanted(r, es, Ids(v.loaded.elements)))
    ensures Through(l, r, es, [Save(v.saved)] + OfElements(es, v.loaded.elements, 0)) ==
            AllEntered(l, Wanted(r, es, Ids(v.loaded.elements)))
  {
    var a, b, c := [Save(v.saved)], OfElements(es, v.loaded.elements, 0), Each(v.files, OfFile);
    NoElements(a);
    NoElements([Save(v.logged)]);
    ElementsOf(es, v.loaded.elements, 0);
    assert Ids(v.loaded.elements)[0..] == Ids(v.loaded.elements);
    FilesHaveNoElements(v.files, l, r, es);
    ElementIdsAppend(a, b);
    ElementIdsAppend(a + b, c);
    ElementIdsAppend(a + b + c, [Save(v.logged)]);
  }

  /** The items of a collection. */
  method MoveItems(files: BitstreamTable, metadata: MetadataTables, visits: seq<ItemVisit>, dest: int, key: string,
                  note: string, ghost r: Registry, ghost es: Elements, ghost done: seq<int>, ghost l: Ledger)
    returns (ok: bool)
    requires Reached(metadata, r, es, done, dest, note, l)
    requires forall i :: 0 <= i < |visits| ==> Loads(es, visits[i].loaded)
    modifies files`bitstreams, files.store, metadata
    ensures Performs(old(files.Now()), files.Now(), ok, l, r, es, Each(visits, ItemOf(es)), key)
    ensures ok ==> Reached(metadata, r, es, done + ElementIds(Each(visits, ItemOf(es))), dest, note,
                           Through(l, r, es, Each(visits, ItemOf(es))))
  {
    ghost var start := files.Now();
    NoRounds(start, l, r, es, visits, ItemOf(es), key);
    assert done + ElementIds([]) == done;
    for i := 0 to |visits|
      invariant Performs(start, files.Now(), true, l, r, es, Each(visits[..i], ItemOf(es)), key)
      invariant Reached(metadata, r, es, done + ElementIds(Each(visits[..i], ItemOf(es))), dest, note,
                        Through(l, r, es, Each(visits[..i], ItemOf(es))))
    {
      ghost var s := files.Now();
      ghost var block := Each(visits[..i], ItemOf(es));
      ghost var now, before := Through(l, r, es, block), ElementIds(block);
      ok := MoveItem(files, metadata, visits[i], dest, key, note, r, es, done + before, now);
      RoundPerforms(start, s, files.Now(), ok, l, r, es, visits, i, ItemOf(es), key);
      if !ok {
        RoundRaises(start, files.Now(), l, r, es, visits, i + 1, ItemOf(es), key);
        return;
      }
      RoundThrough(l, r, es, visits, i, ItemOf(es));
      Associative(done, before, ElementIds(ItemOf(es)(visits[i])));
    }
    assert visits[..|visits|] == visits;
    ok := true;
  }

  /** One collection: its save, then its items. */
  method MoveCollection(files: BitstreamTable, metadata: MetadataTables, flags: Burial.State, v: CollectionVisit,
                        dest: int, key: string, note: string, ghost r: Registry, ghost es: Elements,
                        ghost done: seq<int>, ghost l: Ledger)
    returns (ok: bool)
    requires Reached(metadata, r, es, done, dest, note, l) && CollectionLoads(es, v)
    modifies files`bitstreams, files.store, metadata
    ensures Performs(old(files.Now()), files.Now(), ok, l, r, es, OfCollection(flags, es, v), key)
    ensures ok ==> Reached(metadata, r, es, done + ElementIds(OfCollection(flags, es, v)), dest, note,
                           Through(l, r, es, OfCollection(flags, es, v)))
  {
    ghost var start := files.Now();
    ghost var rest := Each(v.items, ItemOf(es));
    ok := CollectionSaves(flags, v);
    SaveFirst(start, ok, l, r, es, rest, key);
    if !ok { return; }
    ok := MoveItems(files, metadata, v.items, dest, key, note, r, es, done, l);
    PerformsNext(start, start, files.Now(), ok, l, r, es, [Save(true)], rest, key);
  }

  /** A save at the head of a block: it ends the block, or leaves it to the rest. */
  lemma SaveFirst(s: State, passes: bool, l: Ledger, r: Registry, es: Elements, rest: seq<Statement>, key: string)
    ensures Performs(s, s, passes, l, r, es, [Save(passes)], key)
    ensures !passes ==> Performs(s, s, false, l, r, es, [Save(passes)] + rest, key)
    ensures Through(l, r, es, [Save(passes)]) == l
    ensures Through(l, r, es, [Save(passes)] + rest) == Through(l, r, es, rest)
    ensures ElementIds([Save(passes)] + rest) == ElementIds(rest)
  {
    PerformsOne(s, s, passes, l, r, es, Save(passes), key);
    NoElements([Save(passes)]);
    ElementIdsAppend([Save(passes)], rest);
    assert [] + ElementIds(rest) == ElementIds(rest);
    if !passes { PerformsNot(s, s, l, r, es, [Save(passes)], rest, key); }
  }

  ghost predicate CollectionLoads(es: Elements, v: CollectionVisit) {
    forall i :: 0 <= i < |v.items| ==> Loads(es, v.items[i].loaded)
  }

  ghost predicate UnitLoads(es: Elements, v: UnitVisit) {
    forall i :: 0 <= i < |v.collections| ==> CollectionLoads(es, v.collections[i])
  }

  /** The collections of a unit. */
  method MoveCollections(files: BitstreamTable, metadata: MetadataTables, flags: Burial.State,
                         visits: seq<CollectionVisit>, dest: int, key: string, note: string, ghost r: Registry,
                         ghost es: Elements, ghost done: seq<int>, ghost l: Ledger)
    returns (ok: bool)
    requires Reached(metadata, r, es, done, dest, note, l)
    requires forall i :: 0 <= i < |visits| ==> CollectionLoads(es, visits[i])
    modifies files`bitstreams, files.store, metadata
    ensures Performs(old(files.Now()), files.Now(), ok, l, r, es, Each(visits, CollectionOf(flags, es)), key)
    ensures ok ==> Reached(metadata, r, es, done + ElementIds(Each(visits, CollectionOf(flags, es))), dest, note,
                           Through(l, r, es, Each(visits, CollectionOf(flags, es))))
  {
    ghost var start := files.Now();
    NoRounds(start, l, r, es, visits, CollectionOf(flags, es), key);
    assert done + ElementIds([]) == done;
    for i := 0 to |visits|
      invariant Performs(start, files.Now(), true, l, r, es, Each(visits[..i], CollectionOf(flags, es)), key)
      invariant Reached(metadata, r, es, done + ElementIds(Each(visits[..i], CollectionOf(flags, es))), dest, note,
                        Through(l, r, es, Each(visits[..i], CollectionOf(flags, es))))
    {
      ghost var s := files.Now();
      ghost var block := Each(visits[..i], CollectionOf(flags, es));
      ghost var now, before := Through(l, r, es, block), ElementIds(block);
      ok := MoveCollection(files, metadata, flags, visits[i], dest, key, note, r, es, done + before, now);
      RoundPerforms(start, s, files.Now(), ok, l, r, es, visits, i, CollectionOf(flags, es), key);
      if !ok {
        RoundRaises(start, files.Now(), l, r, es, visits, i + 1, CollectionOf(flags, es), key);
        return;
      }
      RoundThrough(l, r, es, visits, i, CollectionOf(flags, es));
      Associative(done, before, ElementIds(CollectionOf(flags, es)(visits[i])));
    }
    assert visits[..|visits|] == visits;
    ok := true;
  }

  // ----- the units -----

  function UnitIds(visits: seq<UnitVisit>): seq<int> {
    seq(|visits|, i requires 0 <= i < |visits| => visits[i].id)
  }

  /** The loop visits the unit and all units below it, in some order, with all their contents. */
  ghost predicate VisitsSubtree(f: Parents, u: int, es: Elements, visits: seq<UnitVisit>)
    requires IsForest(f) && u in f
  {
    && (forall w :: w in UnitIds(visits) <==> w in Subtree(f, u))
    && (forall i :: 0 <= i < |visits| ==> UnitLoads(es, visits[i]))
  }

  lemma {:induction false} EachSame<V>(visits: seq<V>, f: V -> seq<Statement>, g: V -> seq<Statement>)
    requires forall i :: 0 <= i < |visits| ==> f(visits[i]) == g(visits[i])
    ensures Each(visits, f) == Each(visits, g)
  {
    if visits != [] { EachSame(visits[1..], f, g); }
  }

  /** The loop runs after the root has been detached, and is the same as before. */
  lemma DetachedItinerary(f: Parents, flags: Burial.State, u: int, es: Elements, visits: seq<UnitVisit>)
    requires IsForest(f) && u in f && FlagsOf(f, flags) && VisitsSubtree(f, u, es, visits)
    ensures Itinerary(Detached(flags, u), es, visits) == Itinerary(flags, es, visits)
  {
    var now := Detached(flags, u);
    forall i | 0 <= i < |visits| ensures UnitOf(now, es)(visits[i]) == UnitOf(flags, es)(visits[i]) {
      assert UnitIds(visits)[i] == visits[i].id && visits[i].id in UnitIds(visits);
      DetachKeepsRefusals(f, flags, u, visits[i].id);
      SameCollections(flags, u, es, visits[i].collections);
    }
    EachSame(visits, UnitOf(now, es), UnitOf(flags, es));
  }

  lemma SameCollections(flags: Burial.State, u: int, es: Elements, visits: seq<CollectionVisit>)
    requires u in flags.units
    ensures Each(visits, CollectionOf(Detached(flags, u), es)) == Each(visits, CollectionOf(flags, es))
  {}

  /** One unit: its administrators, its own row, and its collections. */
  method MoveUnit(table: UnitTable, files: BitstreamTable, metadata: MetadataTables, flags: Burial.State,
                  v: UnitVisit, dest: Institution, note: string, ghost r: Registry, ghost es: Elements,
                  ghost done: seq<int>, ghost l: Ledger)
    returns (ok: bool)
    requires v.id in table.administrators && v.id in table.institution
    requires Reached(metadata, r, es, done, dest.id, note, l) && UnitLoads(es, v)
    modifies table`administrators, table`institution, files`bitstreams, files.store, metadata
    ensures Performs(old(files.Now()), files.Now(), ok, l, r, es, OfUnit(flags, es, v), dest.key)
    ensures ok ==> Reached(metadata, r, es, done + ElementIds(OfUnit(flags, es, v)), dest.id, note,
                           Through(l, r, es, OfUnit(flags, es, v)))
    ensures ok ==> table.administrators == old(table.administrators)[v.id := {}]
    ensures ok ==> table.institution == old(table.institution)[v.id := dest.id]
  {
    ghost var start := files.Now();
    ghost var rest := Each(v.collections, CollectionOf(flags, es));
    ok := table.Reassign(v.id, dest.id, flags);
    SaveFirst(start, ok, l, r, es, rest, dest.key);
    if !ok { return; }
    ok := MoveCollections(files, metadata, flags, v.collections, dest.id, dest.key, note, r, es, done, l);
    PerformsNext(start, start, files.Now(), ok, l, r, es, [Save(true)], rest, dest.key);
  }

  /** The rows of the units visited so far. */
  ghost predicate UnitRows(visits: seq<UnitVisit>, dest: int, admins: map<int, Users>, institutions: map<int, int>,
                           admins': map<int, Users>, institutions': map<int, int>)
  {
    && admins'.Keys == admins.Keys && institutions'.Keys == institutions.Keys
    && (forall w :: w in admins ==> admins'[w] == if w in UnitIds(visits) then {} else admins[w])
    && (forall w :: w in institutions ==> institutions'[w] == if w in UnitIds(visits) then dest else institutions[w])
  }

  lemma UnitRowsNext(visits: seq<UnitVisit>, i: nat, dest: int, admins: map<int, Users>, institutions: map<int, int>,
                     admins1: map<int, Users>, institutions1: map<int, int>)
    requires i < |visits| && visits[i].id in admins && visits[i].id in institutions
    requires UnitRows(visits[..i], dest, admins, institutions, admins1, institutions1)
    ensures UnitRows(visits[..i + 1], dest, admins, institutions, admins1[visits[i].id := {}],
                     institutions1[visits[i].id := dest])
  {
    assert UnitIds(visits[..i + 1]) == UnitIds(visits[..i]) + [visits[i].id];
  }

  /** The units, one after the other, up to the first statement that raises. */
  method MoveUnits(table: UnitTable, files: BitstreamTable, metadata: MetadataTables, flags: Burial.State,
                   visits: seq<UnitVisit>, dest: Institution, note: string, ghost r: Registry, ghost es: Elements)
    returns (ok: bool)
    requires ReachedUnit(metadata, r, es, flags, visits, 0, dest.id, note)
    requires forall i :: 0 <= i < |visits| ==> UnitLoads(es, visits[i])
    requires forall i :: 0 <= i < |visits| ==> visits[i].id in table.administrators && visits[i].id in table.institution
    modifies table`administrators, table`institution, files`bitstreams, files.store, metadata
    ensures Performs(old(files.Now()), files.Now(), ok, LedgerOf(r, dest.id, note), r, es,
                     Itinerary(flags, es, visits), dest.key)
    ensures ok ==> metadata.HaveMoved(r, es, ElementIds(Itinerary(flags, es, visits)), dest.id)
    ensures ok ==> UnitRows(visits, dest.id, old(table.administrators), old(table.institution), table.administrators,
                            table.institution)
  {
    ghost var start, l := files.Now(), LedgerOf(r, dest.id, note);
    ghost var admins, institutions := table.administrators, table.institution;
    NoRounds(start, l, r, es, visits, UnitOf(flags, es), dest.key);
    for i := 0 to |visits|
      invariant Performs(start, files.Now(), true, l, r, es, Each(visits[..i], UnitOf(flags, es)), dest.key)
      invariant ReachedUnit(metadata, r, es, flags, visits, i, dest.id, note)
      invariant UnitRows(visits[..i], dest.id, admins, institutions, table.administrators, table.institution)
    {
      ghost var s, admins1, institutions1 := files.Now(), table.administrators, table.institution;
      ok := MoveNthUnit(table, files, metadata, flags, visits, i, dest, note, r, es);
      RoundPerforms(start, s, files.Now(), ok, l, r, es, visits, i, UnitOf(flags, es), dest.key);
      if !ok {
        RoundRaises(start, files.Now(), l, r, es, visits, i + 1, UnitOf(flags, es), dest.key);
        return;
      }
      UnitRowsNext(visits, i, dest.id, admins, institutions, admins1, institutions1);
    }
    assert visits[..|visits|] == visits;
    ok := true;
  }

  /** The metadata of the first `i` units has been moved. */
  ghost predicate ReachedUnit(metadata: MetadataTables, r: Registry, es: Elements, flags: Burial.State,
                              visits: seq<UnitVisit>, i: nat, dest: int, note: string)
    requires i <= |visits|
    reads metadata
  {
    var block := Each(visits[..i], UnitOf(flags, es));
    Reached(metadata, r, es, ElementIds(block), dest, note, Through(LedgerOf(r, dest, note), r, es, block))
  }

  method MoveNthUnit(table: UnitTable, files: BitstreamTable, metadata: MetadataTables, flags: Burial.State,
                     visits: seq<UnitVisit>, i: nat, dest: Institution, note: string, ghost r: Registry,
                     ghost es: Elements)
    returns (ok: bool)
    requires i < |visits| && UnitLoads(es, visits[i])
    requires visits[i].id in table.administrators && visits[i].id in table.institution
    requires ReachedUnit(metadata, r, es, flags, visits, i, dest.id, note)
    modifies table`administrators, table`institution, files`bitstreams, files.store, metadata
    ensures Performs(old(files.Now()), files.Now(), ok,
                     Through(LedgerOf(r, dest.id, note), r, es, Each(visits[..i], UnitOf(flags, es))), r, es,
                     UnitOf(flags, es)(visits[i]), dest.key)
    ensures ok ==> ReachedUnit(metadata, r, es, flags, visits, i + 1, dest.id, note)
    ensures ok ==> table.administrators == old(table.administrators)[visits[i].id := {}]
    ensures ok ==> table.institution == old(table.institution)[visits[i].id := dest.id]
  {
    ghost var l, block := LedgerOf(r, dest.id, note), Each(visits[..i], UnitOf(flags, es));
    ok := MoveUnit(table, files, metadata, flags, visits[i], dest, note, r, es, ElementIds(block),
                   Through(l, r, es, block));
    RoundThrough(l, r, es, visits, i, UnitOf(flags, es));
  }

  // ----- the whole move -----

  /** All the tables and the stored objects. */
  datatype World = World(parent: Parents, title: map<int, string>, institution: map<int, int>,
                         administrators: map<int, Users>, files: State, registry: Registry, elements: Elements)

  ghost function Now(table: UnitTable, files: BitstreamTable, metadata: MetadataTables): World
    reads table, files, files.store, metadata
  {
    World(table.parent, table.title, table.institution, table.administrators, files.Now(), metadata.registry,
          metadata.elements)
  }

  /**
    A call, with what the loop will load: the burial flags, the units with their
    contents, and the items whose bitstreams are among them.
   */
  datatype Request = Request(unit: int, dest: Option<Institution>, userGiven: bool, date: string, flags: Burial.State,
                             visits: seq<UnitVisit>, items: set<nat>)

  ghost predicate ValidFor(w: World, q: Request) {
    && IsForest(w.parent) && q.unit in w.parent
    && w.title.Keys == w.parent.Keys && w.institution.Keys == w.parent.Keys && w.administrators.Keys == w.parent.Keys
    && FlagsOf(w.parent, q.flags) && Sound(w.registry, w.elements)
    && VisitsSubtree(w.parent, q.unit, w.elements, q.visits)
  }

  /** What is checked before anything is changed, and that the root can be saved for its detachment. */
  predicate Starts(w: World, q: Request)
    requires q.unit in w.title && q.unit in w.institution && w.title.Keys == w.institution.Keys
  {
    && q.dest.Some? && q.userGiven && q.dest.value.id != w.institution[q.unit]
    && (!exists x :: x in w.institution && w.institution[x] == q.dest.value.id && w.title[x] == w.title[q.unit])
    && !Burial.SaveRefused(q.flags, Burial.U(q.unit))
  }

  /** The first of the checks, in their order, that does not pass. */
  predicate Justified(w: World, q: Request, error: MoveError)
    requires q.unit in w.title && q.unit in w.institution && w.title.Keys == w.institution.Keys
  {
    match error
    case InstitutionMissing => q.dest.None?
    case UserMissing => q.dest.Some? && !q.userGiven
    case SameInstitution => q.dest.Some? && q.userGiven && q.dest.value.id == w.institution[q.unit]
    case TitleTaken =>
      && q.dest.Some? && q.userGiven && q.dest.value.id != w.institution[q.unit]
      && exists x :: x in w.institution && w.institution[x] == q.dest.value.id && w.title[x] == w.title[q.unit]
    case DetachRefused =>
      && q.dest.Some? && q.userGiven && q.dest.value.id != w.institution[q.unit]
      && (!exists x :: x in w.institution && w.institution[x] == q.dest.value.id && w.title[x] == w.title[q.unit])
      && Burial.SaveRefused(q.flags, Burial.U(q.unit))
    case LoopRaised => Starts(w, q)
  }

  function NoteOf(w: World, q: Request): string
    requires q.unit in w.title && q.dest.Some?
  {
    ScopeNote(w.title[q.unit], q.dest.value.name, q.date)
  }

  function StopsOf(w: World, q: Request): seq<Stop>
    requires q.unit in w.title && q.dest.Some?
  {
    MoveStops(w.registry, w.elements, q.flags, q.visits, q.dest.value.id, NoteOf(w, q))
  }

  /** The storage invariant holds, and the loop gives a new key to exactly the bitstreams of the items. */
  ghost predicate WellPosed(w: World, q: Request)
    requires q.unit in w.title
  {
    && q.dest.Some? && Good(w.files)
    && WellFormed(w.files, StorageRuns.Op.MoveTo(q.items, StopsOf(w, q), q.dest.value.key))
  }

  /** What the loop asks of the tables and the objects. */
  ghost predicate LoopPasses(w: World, q: Request)
    requires q.unit in w.title && q.dest.Some?
  {
    CanMove(w.files, w.registry, w.elements, q.flags, q.visits, q.dest.value.id, q.dest.value.key, NoteOf(w, q))
  }

  /** The note names the unit and the destination. */
  lemma LoopPassesMeans(w: World, q: Request)
    requires q.unit in w.title && q.dest.Some?
    ensures var note := ScopeNote(w.title[q.unit], q.dest.value.name, q.date);
            && (LoopPasses(w, q) <==> CanMove(w.files, w.registry, w.elements, q.flags, q.visits, q.dest.value.id,
                                              q.dest.value.key, note))
            && StopsOf(w, q) == MoveStops(w.registry, w.elements, q.flags, q.visits, q.dest.value.id, note)
  {}

  /** The subtree is under the new institution and without administrators, and the rest is as before. */
  ghost predicate Moves(f: Parents, u: int, dest: int, admins: map<int, Users>, institutions: map<int, int>,
                        admins': map<int, Users>, institutions': map<int, int>)
    requires IsForest(f) && u in f
  {
    && admins' == ClearedBelow(f, admins, u) && institutions'.Keys == institutions.Keys
    && forall w :: w in institutions ==> institutions'[w] == if w in Subtree(f, u) then dest else institutions[w]
  }

  /** The storage move, and all rows of units and of metadata with it or none. */
  ghost predicate Ran(w: World, w': World, f: Parents, u: int, items: set<nat>, stops: seq<Stop>, ids: seq<int>,
                      dest: Institution, ok: bool)
    requires IsForest(f) && u in f
  {
    && w'.title == w.title && w'.parent == w.parent
    && Outcome(w'.files, ok) == Relocate(w.files, items, stops, dest.key)
    && if ok then
         && Moves(f, u, dest.id, w.administrators, w.institution, w'.administrators, w'.institution)
         && AllMoved(w.registry, w.elements, w'.registry, w'.elements, ids, dest.id)
       else
         && w'.administrators == w.administrators && w'.institution == w.institution
         && w'.registry == w.registry && w'.elements == w.elements
  }

  /** The loop, once the root has been detached. */
  ghost predicate LoopRan(w: World, w': World, q: Request, ok: bool)
    requires ValidFor(w, q) && q.dest.Some?
  {
    Ran(w.(parent := w.parent[q.unit := None]), w', w.parent, q.unit, q.items, StopsOf(w, q),
        ElementIds(Itinerary(q.flags, w.elements, q.visits)), q.dest.value, ok)
  }

  lemma RowsOfSubtree(f: Parents, u: int, es: Elements, visits: seq<UnitVisit>, dest: int, admins: map<int, Users>,
                      institutions: map<int, int>, admins': map<int, Users>, institutions': map<int, int>)
    requires IsForest(f) && u in f && VisitsSubtree(f, u, es, visits)
    requires UnitRows(visits, dest, admins, institutions, admins', institutions')
    ensures Moves(f, u, dest, admins, institutions, admins', institutions')
  {
    var cleared := ClearedBelow(f, admins, u);
    forall w ensures w in cleared <==> w in admins' { assert w in admins'.Keys <==> w in admins.Keys; }
    forall w | w in cleared ensures cleared[w] == admins'[w] {}
  }

  lemma VisitedUnits(f: Parents, u: int, es: Elements, visits: seq<UnitVisit>)
    requires IsForest(f) && u in f && VisitsSubtree(f, u, es, visits)
    ensures forall i :: 0 <= i < |visits| ==> visits[i].id in f
  {
    forall i | 0 <= i < |visits| ensures visits[i].id in f {
      assert UnitIds(visits)[i] == visits[i].id && visits[i].id in UnitIds(visits);
    }
  }

  lemma ReachedNone(metadata: MetadataTables, flags: Burial.State, visits: seq<UnitVisit>, dest: int, note: string)
    requires metadata.Valid() && SameHome(metadata.registry, metadata.elements)
    ensures ReachedUnit(metadata, metadata.registry, metadata.elements, flags, visits, 0, dest, note)
  {}

  /** The items and then the units, up to the first statement that raises. */
  method RunUnits(table: UnitTable, files: BitstreamTable, metadata: MetadataTables, flags: Burial.State,
                  visits: seq<UnitVisit>, items: set<nat>, dest: Institution, note: string, ghost u: int,
                  ghost f: Parents, ghost w: World)
    returns (ok: bool)
    requires w == Now(table, files, metadata) && table.Valid() && IsForest(f) && u in f && f.Keys == table.parent.Keys
    requires metadata.Valid() && SameHome(metadata.registry, metadata.elements)
    requires VisitsSubtree(f, u, metadata.elements, visits)
    modifies table`administrators, table`institution, files`institutionOf, files`bitstreams, files.store, metadata
    ensures Outcome(if ok then files.Now() else RolledBack(w.files, files.Now()), ok) ==
            Relocate(w.files, items,
                     MoveStops(w.registry, w.elements, flags, visits, dest.id, note), dest.key)
    ensures ok ==> Moves(f, u, dest.id, w.administrators, w.institution, table.administrators,
                         table.institution)
    ensures ok ==> metadata.HaveMoved(w.registry, w.elements,
                                      ElementIds(Itinerary(flags, w.elements, visits)), dest.id)
  {
    ghost var s, r, es := w.files, w.registry, w.elements;
    ghost var admins, institutions := w.administrators, w.institution;
    files.institutionOf := Reassigned(files.institutionOf, items, dest.key);
    VisitedUnits(f, u, es, visits);
    ReachedNone(metadata, flags, visits, dest.id, note);
    ok := MoveUnits(table, files, metadata, flags, visits, dest, note, r, es);
    if ok {
      RowsOfSubtree(f, u, es, visits, dest.id, admins, institutions, table.administrators, table.institution);
    }
  }

  /** Takes back the rows of all tables, and no object. */
  method RollBack(table: UnitTable, files: BitstreamTable, metadata: MetadataTables, administrators: map<int, Users>,
                  institution: map<int, int>, institutionOf: map<nat, string>, rows: map<int, Bitstream>,
                  registry: Registry, elements: Elements, nextId: int)
    requires IsForest(table.parent) && institution.Keys == table.parent.Keys == table.title.Keys
    requires administrators.Keys == table.parent.Keys && forall u :: u in table.title ==> !Blank(table.title[u])
    requires Unique(registry) && NamesKnown(registry, elements) && forall a :: a in registry ==> a < nextId
    modifies table`administrators, table`institution, files`institutionOf, files`bitstreams, metadata
    ensures table.Valid() && table.administrators == administrators && table.institution == institution
    ensures files.Now() == State(institutionOf, rows, old(files.Now()).store, old(files.Now()).content)
    ensures metadata.Valid() && metadata.registry == registry && metadata.elements == elements
  {
    table.administrators, table.institution := administrators, institution;
    files.institutionOf, files.bitstreams := institutionOf, rows;
    metadata.registry, metadata.elements, metadata.nextId := registry, elements, nextId;
  }

  /** The loop, taken back if it raises. */
  method RunLoop(table: UnitTable, files: BitstreamTable, metadata: MetadataTables, flags: Burial.State,
                 visits: seq<UnitVisit>, items: set<nat>, dest: Institution, note: string, ghost u: int,
                 ghost f: Parents, ghost w: World)
    returns (ok: bool)
    requires w == Now(table, files, metadata) && table.Valid() && IsForest(f) && u in f && f.Keys == table.parent.Keys
    requires metadata.Valid() && SameHome(metadata.registry, metadata.elements)
    requires VisitsSubtree(f, u, metadata.elements, visits)
    modifies table`administrators, table`institution, files, files.store, metadata
    ensures table.Valid() && metadata.Valid()
    ensures Outcome(files.Now(), ok) ==
            Relocate(w.files, items,
                     MoveStops(w.registry, w.elements, flags, visits, dest.id, note), dest.key)
    ensures ok ==> Moves(f, u, dest.id, w.administrators, w.institution, table.administrators,
                         table.institution)
    ensures ok ==> AllMoved(w.registry, w.elements, metadata.registry, metadata.elements,
                            ElementIds(Itinerary(flags, w.elements, visits)), dest.id)
    ensures !ok ==>
              && table.administrators == w.administrators && table.institution == w.institution
              && metadata.registry == w.registry && metadata.elements == w.elements
  {
    var administratorsBefore, institutionBefore := table.administrators, table.institution;
    var institutionsBefore, rowsBefore := files.institutionOf, files.bitstreams;
    var registryBefore, elementsBefore, nextIdBefore := metadata.registry, metadata.elements, metadata.nextId;
    ok := RunUnits(table, files, metadata, flags, visits, items, dest, note, u, f, w);
    if !ok {
      RollBack(table, files, metadata, administratorsBefore, institutionBefore, institutionsBefore, rowsBefore,
               registryBefore, elementsBefore, nextIdBefore);
    }
  }

  /** What the parts of the loop did, put together. */
  lemma HasRun(w: World, w': World, f: Parents, u: int, items: set<nat>, stops: seq<Stop>, ids: seq<int>,
               dest: Institution, ok: bool)
    requires IsForest(f) && u in f && w'.title == w.title && w'.parent == w.parent
    requires Outcome(w'.files, ok) == Relocate(w.files, items, stops, dest.key)
    requires ok ==> Moves(f, u, dest.id, w.administrators, w.institution, w'.administrators, w'.institution)
    requires ok ==> AllMoved(w.registry, w.elements, w'.registry, w'.elements, ids, dest.id)
    requires !ok ==> w'.administrators == w.administrators && w'.institution == w.institution
                     && w'.registry == w.registry && w'.elements == w.elements
    ensures Ran(w, w', f, u, items, stops, ids, dest, ok)
  {}

  /** The loop, all or nothing as far as rows are concerned. */
  method RunInTransaction(table: UnitTable, files: BitstreamTable, metadata: MetadataTables, flags: Burial.State,
                          visits: seq<UnitVisit>, items: set<nat>, dest: Institution, note: string, ghost u: int,
                          ghost f: Parents)
    returns (ok: bool)
    requires table.Valid() && IsForest(f) && u in f && f.Keys == table.parent.Keys
    requires metadata.Valid() && SameHome(metadata.registry, metadata.elements)
    requires VisitsSubtree(f, u, metadata.elements, visits)
    modifies table`administrators, table`institution, files, files.store, metadata
    ensures table.Valid() && metadata.Valid()
    ensures Ran(old(Now(table, files, metadata)), Now(table, files, metadata), f, u, items,
                MoveStops(old(metadata.registry), old(metadata.elements), flags, visits, dest.id, note),
                ElementIds(Itinerary(flags, old(metadata.elements), visits)), dest, ok)
  {
    ghost var w := Now(table, files, metadata);
    ghost var stops := MoveStops(w.registry, w.elements, flags, visits, dest.id, note);
    ghost var ids := ElementIds(Itinerary(flags, w.elements, visits));
    ok := RunLoop(table, files, metadata, flags, visits, items, dest, note, u, f, w);
    HasRun(w, Now(table, files, metadata), f, u, items, stops, ids, dest, ok);
  }

  /** The units at or below the root are in the new institution without administrators, and no other unit changes. */
  ghost predicate UnitsMoved(w: World, w': World, u: int, dest: int) {
    && w'.title == w.title && w'.parent == w.parent[u := None]
    && (forall v :: v in w.institution ==>
          v in w'.institution && w'.institution[v] == if Reaches(w.parent, u, v) then dest else w.institution[v])
    && (forall v :: v in w.administrators ==>
          v in w'.administrators
          && w'.administrators[v] == if Reaches(w.parent, u, v) then {} else w.administrators[v])
  }

  /** The elements visited point to a registered element of the same name at the destination, and no other changes. */
  ghost predicate ElementsMoved(w: World, w': World, visited: seq<int>, dest: int) {
    && w'.elements.Keys == w.elements.Keys
    && (forall e :: e in w.elements && e !in visited ==> w'.elements[e] == w.elements[e])
    && (forall e :: e in w.elements && e in visited ==>
          && w.elements[e].registered in w.registry && w'.elements[e].registered in w'.registry
          && w'.elements[e] == w.elements[e].(registered := w'.elements[e].registered)
          && w'.registry[w'.elements[e].registered].name == w.registry[w.elements[e].registered].name
          && w'.registry[w'.elements[e].registered].institution == dest)
  }

  ghost predicate RowsMoved(w: World, w': World, q: Request)
    requires q.dest.Some?
  {
    && UnitsMoved(w, w', q.unit, q.dest.value.id)
    && ElementsMoved(w, w', ElementIds(Itinerary(q.flags, w.elements, q.visits)), q.dest.value.id)
  }

  lemma LoopMovesRows(w: World, w': World, q: Request)
    requires ValidFor(w, q) && q.dest.Some? && LoopRan(w, w', q, true)
    ensures RowsMoved(w, w', q)
  {
    LoopMovesUnits(w, w', q.unit, q.dest.value.id);
    LoopMovesElements(w, w', ElementIds(Itinerary(q.flags, w.elements, q.visits)), q.dest.value.id);
  }

  lemma LoopMovesUnits(w: World, w': World, u: int, dest: int)
    requires IsForest(w.parent) && u in w.parent && w'.title == w.title && w'.parent == w.parent[u := None]
    requires w.institution.Keys == w.parent.Keys && w.administrators.Keys == w.parent.Keys
    requires Moves(w.parent, u, dest, w.administrators, w.institution, w'.administrators, w'.institution)
    ensures UnitsMoved(w, w', u, dest)
  {
    ReachesSelf(w.parent, u);
    forall v | v in w.parent ensures v in Subtree(w.parent, u) <==> Reaches(w.parent, u, v) {}
  }

  lemma LoopMovesElements(w: World, w': World, visited: seq<int>, dest: int)
    requires NamesKnown(w.registry, w.elements)
    requires AllMoved(w.registry, w.elements, w'.registry, w'.elements, visited, dest)
    ensures ElementsMoved(w, w', visited, dest)
  {
    forall e | e in w.elements && e in visited
      ensures Moved(RegisteredOf(w.registry, w.elements, e), w.elements[e], w'.registry, w'.elements[e], dest)
    {}
  }

  /** Rows of all tables after a loop that failed. */
  predicate RowsKept(w: World, w': World) {
    && w'.title == w.title && w'.institution == w.institution && w'.administrators == w.administrators
    && w'.registry == w.registry && w'.elements == w.elements && w'.files.bitstreams == w.files.bitstreams
    && w'.files.institutionOf == w.files.institutionOf
  }

  lemma LoopKeepsRows(w: World, w': World, q: Request)
    requires ValidFor(w, q) && q.dest.Some? && LoopRan(w, w', q, false)
    ensures RowsKept(w, w') && w'.parent == w.parent[q.unit := None]
  {}

  /** The detachment, which stands, and then the loop. */
  method DetachAndRun(table: UnitTable, files: BitstreamTable, metadata: MetadataTables, q: Request)
    returns (ok: bool)
    requires table.Valid() && metadata.Valid() && ValidFor(Now(table, files, metadata), q) && q.dest.Some?
    modifies table, files, files.store, metadata
    ensures table.Valid() && metadata.Valid()
    ensures LoopRan(old(Now(table, files, metadata)), Now(table, files, metadata), q, ok)
    ensures ok ==> RowsMoved(old(Now(table, files, metadata)), Now(table, files, metadata), q)
    ensures !ok ==> RowsKept(old(Now(table, files, metadata)), Now(table, files, metadata))
                    && table.parent == old(table.parent)[q.unit := None]
  {
    var note := ScopeNote(table.title[q.unit], q.dest.value.name, q.date);
    ghost var f := table.parent;
    DetachedItinerary(f, q.flags, q.unit, metadata.elements, q.visits);
    table.Detach(q.unit);
    ghost var w := old(Now(table, files, metadata));
    ok := RunInTransaction(table, files, metadata, Detached(q.flags, q.unit), q.visits, q.items, q.dest.value, note,
                           q.unit, f);
    if ok {
      LoopMovesRows(w, Now(table, files, metadata), q);
    } else {
      LoopKeepsRows(w, Now(table, files, metadata), q);
    }
  }

  lemma GoodMoves(w: World, q: Request)
    requires q.unit in w.title
    ensures WellPosed(w, q) ==>
              (Relocate(w.files, q.items, StopsOf(w, q), q.dest.value.key).ok <==> LoopPasses(w, q))
  {
    if WellPosed(w, q) {
      MoveGoesThroughIff(w.files, w.registry, w.elements, q.items, q.flags, q.visits, q.dest.value.id,
                         q.dest.value.key, NoteOf(w, q));
    }
  }

  /** The effective administrators of a unit, given those of each institution. */
  ghost function AdminsOf(w: World, institutionAdmins: map<int, Users>, u: int): Users
    requires IsForest(w.parent) && u in w.parent && u in w.administrators
    requires u in w.institution && w.institution[u] in institutionAdmins
  {
    EffectiveAdmins(w.parent, w.administrators, institutionAdmins[w.institution[u]], u)
  }

  lemma AdminsAfter(w: World, w': World, q: Request, institutionAdmins: map<int, Users>, v: int)
    requires ValidFor(w, q) && q.dest.Some? && q.dest.value.id in institutionAdmins && v in w.parent
    requires w.institution[v] in institutionAdmins && w'.parent == w.parent[q.unit := None]
    requires Moves(w.parent, q.unit, q.dest.value.id, w.administrators, w.institution, w'.administrators,
                   w'.institution)
    ensures IsForest(w'.parent) && v in w'.administrators && v in w'.institution
    ensures w'.institution[v] in institutionAdmins
    ensures AdminsOf(w', institutionAdmins, v) ==
            if v in Subtree(w.parent, q.unit) then institutionAdmins[q.dest.value.id]
            else AdminsOf(w, institutionAdmins, v)
  {
    MoveHandsOverAdmins(w.parent, w.administrators, q.unit, v, institutionAdmins[w'.institution[v]]);
  }

  lemma FilesAfter(w: World, w': World, q: Request, ok: bool)
    requires ValidFor(w, q) && WellPosed(w, q)
    requires Outcome(w'.files, ok) == Relocate(w.files, q.items, StopsOf(w, q), q.dest.value.key)
    ensures ok ==> Good(w'.files)
    ensures !ok ==> (Good(w'.files) <==>
                     RaisesBeforeMoving(w.files.content, HomeOf(w.files), StopsOf(w, q), q.dest.value.key))
  {
    MoveGoesThroughIff(w.files, w.registry, w.elements, q.items, q.flags, q.visits, q.dest.value.id,
                       q.dest.value.key, NoteOf(w, q));
  }

  /**
    What a caller has after a move. If the loop went through, the storage
    invariant holds, the subtree is administered by the destination's
    administrators and nobody else, and the other units by the same as before. If
    not, the storage invariant holds exactly when no object had been moved.
   */
  lemma AfterMove(w: World, w': World, q: Request, ok: bool, institutionAdmins: map<int, Users>)
    requires ValidFor(w, q) && WellPosed(w, q) && LoopRan(w, w', q, ok)
    requires q.dest.value.id in institutionAdmins
    requires forall v :: v in w.institution ==> w.institution[v] in institutionAdmins
    ensures ok ==> Good(w'.files)
    ensures ok ==> forall v :: v in w.parent ==>
              && IsForest(w'.parent) && v in w'.parent && v in w'.administrators
              && v in w'.institution && w'.institution[v] in institutionAdmins
              && AdminsOf(w', institutionAdmins, v) ==
                 if v in Subtree(w.parent, q.unit) then institutionAdmins[q.dest.value.id]
                 else AdminsOf(w, institutionAdmins, v)
    ensures !ok ==> (Good(w'.files) <==>
                     RaisesBeforeMoving(w.files.content, HomeOf(w.files), StopsOf(w, q), q.dest.value.key))
  {
    FilesAfter(w, w', q, ok);
    if ok {
      forall v | v in w.parent
        ensures IsForest(w'.parent) && v in w'.administrators
        ensures v in w'.institution && w'.institution[v] in institutionAdmins
        ensures AdminsOf(w', institutionAdmins, v) ==
                if v in Subtree(w.parent, q.unit) then institutionAdmins[q.dest.value.id]
                else AdminsOf(w, institutionAdmins, v)
      {
        AdminsAfter(w, w', q, institutionAdmins, v);
      }
    }
  }

  /** What stops a move before the loop. */
  method Refusal(table: UnitTable, files: BitstreamTable, metadata: MetadataTables, q: Request)
    returns (error: Option<MoveError>)
    requires table.Valid() && q.unit in table.parent
    ensures error == Some(InstitutionMissing) <==> q.dest.None?
    ensures error == Some(UserMissing) <==> q.dest.Some? && !q.userGiven
    ensures error == Some(SameInstitution) <==>
            q.dest.Some? && q.userGiven && q.dest.value.id == table.institution[q.unit]
    ensures error == Some(TitleTaken) <==>
            && q.dest.Some? && q.userGiven && q.dest.value.id != table.institution[q.unit]
            && exists x :: x in table.institution && table.institution[x] == q.dest.value.id
                           && table.title[x] == table.title[q.unit]
    ensures error == Some(DetachRefused) <==>
            && q.dest.Some? && q.userGiven && q.dest.value.id != table.institution[q.unit]
            && (!exists x :: x in table.institution && table.institution[x] == q.dest.value.id
                             && table.title[x] == table.title[q.unit])
            && Stuck(q.flags, Burial.U(q.unit))
    ensures error.None? <==> Starts(Now(table, files, metadata), q)
    ensures error.Some? ==> Justified(Now(table, files, metadata), q, error.value)
  {
    if q.dest.None? { return Some(InstitutionMissing); }
    if !q.userGiven { return Some(UserMissing); }
    if q.dest.value.id == table.institution[q.unit] { return Some(SameInstitution); }
    if exists x :: x in table.institution && table.institution[x] == q.dest.value.id
                   && table.title[x] == table.title[q.unit] {
      return Some(TitleTaken);
    }
    Burial.SaveRefusedIff(q.flags, Burial.U(q.unit));
    if Burial.SaveRefused(q.flags, Burial.U(q.unit)) { return Some(DetachRefused); }
    error := None;
  }

  /**
    Moves a unit and everything below it to the root level of another
    institution: the rows of units, of metadata and of bitstreams, and the
    stored objects. A failure in the loop takes back all rows but the detachment,
    and no object.
   */
  method MoveTo(table: UnitTable, files: BitstreamTable, metadata: MetadataTables, q: Request)
    returns (result: Result<(), MoveError>)
    requires table.Valid() && metadata.Valid() && ValidFor(Now(table, files, metadata), q)
    modifies table, files, files.store, metadata
    ensures table.Valid() && metadata.Valid()
    ensures !old(Starts(Now(table, files, metadata), q)) ==>
              result.Failure? && Now(table, files, metadata) == old(Now(table, files, metadata))
    ensures old(Starts(Now(table, files, metadata), q)) ==>
              LoopRan(old(Now(table, files, metadata)), Now(table, files, metadata), q, result.Success?)
    ensures result == Failure(InstitutionMissing) <==> q.dest.None?
    ensures result == Failure(UserMissing) <==> q.dest.Some? && !q.userGiven
    ensures result == Failure(SameInstitution) <==>
            q.dest.Some? && q.userGiven && q.dest.value.id == old(table.institution[q.unit])
    ensures result == Failure(TitleTaken) <==>
            && q.dest.Some? && q.userGiven && q.dest.value.id != old(table.institution[q.unit])
            && old(exists x :: x in table.institution && table.institution[x] == q.dest.value.id
                               && table.title[x] == table.title[q.unit])
    ensures result == Failure(DetachRefused) <==>
            && q.dest.Some? && q.userGiven && q.dest.value.id != old(table.institution[q.unit])
            && !old(exists x :: x in table.institution && table.institution[x] == q.dest.value.id
                                && table.title[x] == table.title[q.unit])
            && Stuck(q.flags, Burial.U(q.unit))
    ensures result.Success? ==> RowsMoved(old(Now(table, files, metadata)), Now(table, files, metadata), q)
    ensures result.Failure? ==> RowsKept(old(Now(table, files, metadata)), Now(table, files, metadata))
    ensures result.Failure? ==>
              table.parent == if result.error.LoopRaised? then old(table.parent)[q.unit := None] else old(table.parent)
    ensures result.Failure? ==> Justified(old(Now(table, files, metadata)), q, result.error)
    ensures old(WellPosed(Now(table, files, metadata), q)) ==>
              (result.Success? <==> old(Starts(Now(table, files, metadata), q))
                                    && old(LoopPasses(Now(table, files, metadata), q)))
  {
    var error := Refusal(table, files, metadata, q);
    if error.Some? { return Failure(error.value); }
    ghost var w := Now(table, files, metadata);
    GoodMoves(w, q);
    var ok := DetachAndRun(table, files, metadata, q);
    result := if ok then Success(()) else Failure(LoopRaised);
  }
}
