/** Histories outside the conditions of the storage runs, and what is lost in them. */
module LostFiles {
  import opened Admission
  import Burial
  import opened Files
  import opened Imports
  import opened Migration
  import opened Relocation
  import opened Storage
  import opened StorageKeys
  import opened StorageMoves
  import opened StorageRuns
  import opened Text
  import opened Wrappers

  /** A file named with one space is created, uploaded, approved and renamed. */
  function FirstHistory(c1: Content): seq<Op> {
    [NewItem(5, "uiuc"), Create(1, 5, " "), Put(1, c1), Approve(1), SetFilename(1, Some("a.txt"), true)]
  }

  /** A second file of that name is created, uploaded and approved. */
  function SecondHistory(c2: Content): seq<Op> {
    [Create(2, 5, " "), Put(2, c2), Approve(2)]
  }

  lemma {:induction false} RunSteps(s: State, ops: seq<Op>, states: seq<State>)
    requires |states| == |ops| && ops != []
    requires states[0] == Step(s, ops[0])
    requires forall i :: 0 < i < |ops| ==> states[i] == Step(states[i - 1], ops[i])
    ensures Run(s, ops) == states[|states| - 1]
    decreases ops
  {
    if |ops| == 1 {
      assert Run(states[0], ops[1..]) == states[0];
    } else {
      RunSteps(states[0], ops[1..], states[1..]);
    }
  }

  lemma {:induction false} RunAppend(s: State, ops: seq<Op>, more: seq<Op>)
    ensures Run(s, ops + more) == Run(Run(s, ops), more)
    decreases ops
  {
    if ops == [] {
      assert ops + more == more;
    } else {
      RunAppend(Step(s, ops[0]), ops[1..], more);
      assert (ops + more)[1..] == ops[1..] + more;
    }
  }

  function SpaceKey(): string { PermanentKey("uiuc", 5, " ") }

  /** After the first history: the file has its new name, and still the key of the old one. */
  function Renamed(c1: Content): State {
    State(map[5 := "uiuc"], map[1 := Bitstream(5, "a.txt", " ", None, Some(SpaceKey()))],
          map[SpaceKey() := c1], map[1 := c1])
  }

  /** After the second: two files on one key. */
  function Collided(c1: Content, c2: Content): State {
    State(map[5 := "uiuc"],
          map[1 := Bitstream(5, "a.txt", " ", None, Some(SpaceKey())),
              2 := Bitstream(5, " ", " ", None, Some(SpaceKey()))],
          map[SpaceKey() := c2], map[1 := c1, 2 := c2])
  }

  lemma FirstFile(c1: Content)
    ensures Run(NOTHING, FirstHistory(c1)) == Renamed(c1)
  {
    var k, p := StagingKey("uiuc", 5, " "), SpaceKey();
    KeyPresent("uploads", "uiuc", 5, " ");
    var s0 := State(map[5 := "uiuc"], map[], map[], map[]);
    var s1 := s0.(bitstreams := map[1 := Bitstream(5, " ", " ", Some(k), None)]);
    var s2 := s1.(store := map[k := c1], content := map[1 := c1]);
    var s3 := s2.(bitstreams := map[1 := Bitstream(5, " ", " ", None, Some(p))], store := map[p := c1]);
    assert Step(NOTHING, NewItem(5, "uiuc")) == s0;
    assert Step(s0, Create(1, 5, " ")) == s1;
    assert Step(s1, Put(1, c1)) == s2;
    FirstApproval(c1, s2);
    assert Step(s3, SetFilename(1, Some("a.txt"), true)) == Renamed(c1);
    RunSteps(NOTHING, FirstHistory(c1), [s0, s1, s2, s3, Renamed(c1)]);
  }

  lemma FirstApproval(c1: Content, s2: State)
    requires var k := StagingKey("uiuc", 5, " ");
             s2 == State(map[5 := "uiuc"], map[1 := Bitstream(5, " ", " ", Some(k), None)], map[k := c1], map[1 := c1])
    ensures var p := SpaceKey();
            Step(s2, Approve(1)) ==
            s2.(bitstreams := map[1 := Bitstream(5, " ", " ", None, Some(p))], store := map[p := c1])
  {
    var k, p := StagingKey("uiuc", 5, " "), SpaceKey();
    KeyPresent("uploads", "uiuc", 5, " ");
    KeyPresent("storage", "uiuc", 5, " ");
    AreasDiffer("uiuc", 5, " ");
    assert Step(s2, Approve(1)).store == map[p := c1];
    assert Step(s2, Approve(1)).bitstreams == map[1 := Bitstream(5, " ", " ", None, Some(p))];
  }

  lemma SecondFile(c1: Content, c2: Content)
    ensures Run(Renamed(c1), SecondHistory(c2)) == Collided(c1, c2)
  {
    var k, p := StagingKey("uiuc", 5, " "), SpaceKey();
    var s4, s7 := Renamed(c1), Collided(c1, c2);
    var s5 := s4.(bitstreams := map[1 := s4.bitstreams[1], 2 := Bitstream(5, " ", " ", Some(k), None)]);
    var s6 := s5.(store := map[p := c1, k := c2], content := map[1 := c1, 2 := c2]);
    SecondSteps(c1, c2, s5, s6);
    RunSteps(s4, SecondHistory(c2), [s5, s6, s7]);
  }

  lemma SecondSteps(c1: Content, c2: Content, s5: State, s6: State)
    requires var k, p, s4 := StagingKey("uiuc", 5, " "), SpaceKey(), Renamed(c1);
      && s5 == s4.(bitstreams := map[1 := s4.bitstreams[1], 2 := Bitstream(5, " ", " ", Some(k), None)])
      && s6 == s5.(store := map[p := c1, k := c2], content := map[1 := c1, 2 := c2])
    ensures Step(Renamed(c1), Create(2, 5, " ")) == s5 && Step(s5, Put(2, c2)) == s6
    ensures Step(s6, Approve(2)) == Collided(c1, c2)
  {
    KeyPresent("uploads", "uiuc", 5, " ");
    SecondApproval(c1, c2, s6);
  }

  lemma SecondApproval(c1: Content, c2: Content, s6: State)
    requires var k, p := StagingKey("uiuc", 5, " "), SpaceKey();
      && s6.institutionOf == map[5 := "uiuc"] && s6.content == map[1 := c1, 2 := c2]
      && s6.bitstreams == map[1 := Bitstream(5, "a.txt", " ", None, Some(p)),
                              2 := Bitstream(5, " ", " ", Some(k), None)]
      && s6.store == map[p := c1, k := c2]
    ensures Step(s6, Approve(2)) == Collided(c1, c2)
  {
    KeyPresent("uploads", "uiuc", 5, " ");
    KeyPresent("storage", "uiuc", 5, " ");
    AreasDiffer("uiuc", 5, " ");
    assert Step(s6, Approve(2)).store == Collided(c1, c2).store;
    assert Step(s6, Approve(2)).bitstreams == Collided(c1, c2).bitstreams;
  }

  /** A blank name, then a rename, then the blank name again: one key for two files, and the first content gone. */
  lemma BlankNameLosesContent(c1: Content, c2: Content)
    requires c1 != c2
    ensures var s := Run(NOTHING, FirstHistory(c1) + SecondHistory(c2));
            && 1 in s.bitstreams && 2 in s.bitstreams
            && KeyOf(s.bitstreams[1]) == KeyOf(s.bitstreams[2])
            && ContentOf(s, 1) == Some(c1) && c1 !in s.store.Values
  {
    RunAppend(NOTHING, FirstHistory(c1), SecondHistory(c2));
    FirstFile(c1);
    SecondFile(c1, c2);
  }

  // ----- a name taken back -----

  /** The object at the other file's key is this file's: whatever comes of the save, the other one's content is lost. */
  lemma NameTakenBackOverwrites(s: State, id: int, c: int, completes: bool)
    requires Good(s) && id in s.bitstreams && c in s.bitstreams && id in s.content && c in s.content && c != id
    requires Overwritten(s.bitstreams[id], s.bitstreams[c])
    requires s.bitstreams[id].original != s.bitstreams[id].filename && !Blank(s.bitstreams[id].filename)
    ensures var r := Rename(s, id, None, completes);
            && c in r.state.bitstreams && r.state.bitstreams[c] == s.bitstreams[c] && r.state.content == s.content
            && r.state.store == s.store[KeyOf(s.bitstreams[c]) := s.content[id]] - {KeyOf(s.bitstreams[id])}
            && KeyOf(s.bitstreams[c]) != KeyOf(s.bitstreams[id])
            && (r.ok <==> completes && s.bitstreams[id].permanentKey.Some?)
            && (r.ok ==> id in r.state.bitstreams && KeyOf(r.state.bitstreams[id]) == KeyOf(s.bitstreams[c]))
  {
    GoodRow(s, id);
    GoodRow(s, c);
    var b, i := s.bitstreams[id], HomeOf(s)[id];
    var row := RowIn(i, b.(filename := b.original));
    RenameIsMove(s, id, None, i, row);
    SameKeyIff(i, row, HomeOf(s)[c], s.bitstreams[c]);
    TakenNameKeys(s, id, row);
    assert KeysOf(s.bitstreams)[id] == KeyOf(b);
    if b.stagingKey.Some? { assert SharesStaging(s, id); }
    KeyedPresent(HomeOf(s)[c], s.bitstreams[c]);
  }

  /** A file is created and uploaded. */
  function FileX(c1: Content): seq<Op> {
    [NewItem(5, "uiuc"), Create(1, 5, "x"), Put(1, c1)]
  }

  /** It is renamed, a second file gets its first name, and both are approved. */
  function FileXAgain(c2: Content): seq<Op> {
    [SetFilename(1, Some("y"), true), Create(2, 5, "x"), Put(2, c2), Approve(1), Approve(2)]
  }

  lemma {:induction false} NoMovesWellFormed(s: State, ops: seq<Op>)
    requires forall op :: op in ops ==> !op.MoveTo?
    ensures AllWellFormed(s, ops)
    decreases ops
  {
    if ops != [] { NoMovesWellFormed(Step(s, ops[0]), ops[1..]); }
  }

  /** Nothing can go wrong with these. */
  lemma {:induction false} PlainOpsCareful(s: State, ops: seq<Op>)
    requires forall op :: op in ops ==> op.NewItem? || op.Create? || op.Put? || op.Approve?
    ensures AllCareful(s, ops)
    decreases ops
  {
    if ops != [] { PlainOpsCareful(Step(s, ops[0]), ops[1..]); }
  }

  lemma {:induction false} FileSteps(v: Shelf, ops: seq<Op>, shelves: seq<Shelf>)
    requires |shelves| == |ops| && ops != []
    requires shelves[0] == FileStep(v, ops[0])
    requires forall i :: 0 < i < |ops| ==> shelves[i] == FileStep(shelves[i - 1], ops[i])
    ensures FileRun(v, ops) == shelves[|shelves| - 1]
    decreases ops
  {
    if |ops| == 1 {
      assert FileRun(shelves[0], ops[1..]) == shelves[0];
    } else {
      FileSteps(shelves[0], ops[1..], shelves[1..]);
    }
  }

  function Shelved(files: map<int, File>): Shelf { Shelf(map[5 := "uiuc"], files) }

  lemma FileXIs(c1: Content)
    ensures var s := Run(NOTHING, FileX(c1));
            && Good(s) && AllCareful(NOTHING, FileX(c1)) && AllWellFormed(NOTHING, FileX(c1))
            && View(s) == Shelved(map[1 := File(5, "x", "x", false, Some(c1))])
  {
    NothingGood();
    NoMovesWellFormed(NOTHING, FileX(c1));
    PlainOpsCareful(NOTHING, FileX(c1));
    RunKeepsGoodIff(NOTHING, FileX(c1));
    GoodAtEnd(NOTHING, FileX(c1));
    RunRefinesFiles(NOTHING, FileX(c1));
    FileSteps(View(NOTHING), FileX(c1), [Shelved(map[]), Shelved(map[1 := File(5, "x", "x", false, None)]),
                                         Shelved(map[1 := File(5, "x", "x", false, Some(c1))])]);
  }

  lemma NothingGood()
    ensures Good(NOTHING) && View(NOTHING) == Shelf(map[], map[])
  {}

  lemma FileXAgainIs(s: State, c1: Content, c2: Content)
    requires Good(s) && View(s) == Shelved(map[1 := File(5, "x", "x", false, Some(c1))])
    ensures var t := Run(s, FileXAgain(c2));
            && Good(t) && AllCareful(s, FileXAgain(c2))
            && View(t) == Shelved(map[1 := File(5, "y", "x", true, Some(c1)), 2 := File(5, "x", "x", true, Some(c2))])
  {
    var ops := FileXAgain(c2);
    assert 1 in View(s).files && !Blank(s.bitstreams[1].filename) by {
      assert View(s).files[1].filename == "x" && "x"[0] == 'x';
    }
    NoMovesWellFormed(s, ops);
    PlainOpsCareful(Step(s, ops[0]), ops[1..]);
    RunKeepsGoodIff(s, ops);
    GoodAtEnd(s, ops);
    RunRefinesFiles(s, ops);
    ShelfAgain(c1, c2);
  }

  lemma ShelfAgain(c1: Content, c2: Content)
    ensures FileRun(Shelved(map[1 := File(5, "x", "x", false, Some(c1))]), FileXAgain(c2)) ==
            Shelved(map[1 := File(5, "y", "x", true, Some(c1)), 2 := File(5, "x", "x", true, Some(c2))])
  {
    var y := File(5, "y", "x", false, Some(c1));
    var x := File(5, "x", "x", false, None);
    assert "x"[0] != "y"[0];
    FileSteps(Shelved(map[1 := File(5, "x", "x", false, Some(c1))]), FileXAgain(c2),
              [Shelved(map[1 := y]), Shelved(map[1 := y, 2 := x]),
               Shelved(map[1 := y, 2 := x.(content := Some(c2))]),
               Shelved(map[1 := y.(archived := true), 2 := x.(content := Some(c2))]),
               Shelved(map[1 := y.(archived := true), 2 := x.(content := Some(c2), archived := true)])]);
  }

  /**
    A file that is left without a name takes back the name that another file has
    by now: all went well before, and then both share a key and the other content
    is gone.
   */
  lemma NoNameLosesContent(c1: Content, c2: Content)
    requires c1 != c2
    ensures AllCareful(NOTHING, FileX(c1)) && AllCareful(Run(NOTHING, FileX(c1)), FileXAgain(c2))
    ensures var s := Run(Run(NOTHING, FileX(c1)), FileXAgain(c2));
            var r := Rename(s, 1, None, true);
            && Good(s) && r.ok && 1 in r.state.bitstreams && 2 in r.state.bitstreams
            && KeyOf(r.state.bitstreams[1]) == KeyOf(r.state.bitstreams[2])
            && ContentOf(r.state, 2) == Some(c2) && c2 !in r.state.store.Values
  {
    FileXIs(c1);
    FileXAgainIs(Run(NOTHING, FileX(c1)), c1, c2);
    TwoFilesClash(Run(Run(NOTHING, FileX(c1)), FileXAgain(c2)), c1, c2);
  }

  lemma OnlyTheirKeys(s: State)
    requires Good(s) && s.content.Keys == s.bitstreams.Keys == {1, 2}
    ensures forall k :: k in s.store ==> k == KeyOf(s.bitstreams[1]) || k == KeyOf(s.bitstreams[2])
  {
    forall k | k in s.store ensures k == KeyOf(s.bitstreams[1]) || k == KeyOf(s.bitstreams[2]) {
      var b :| b in s.content && KeysOf(s.bitstreams)[b] == k;
    }
  }

  lemma TwoFilesClash(s: State, c1: Content, c2: Content)
    requires Good(s) && c1 != c2
    requires View(s) == Shelved(map[1 := File(5, "y", "x", true, Some(c1)), 2 := File(5, "x", "x", true, Some(c2))])
    ensures var r := Rename(s, 1, None, true);
            && r.ok && 1 in r.state.bitstreams && 2 in r.state.bitstreams
            && KeyOf(r.state.bitstreams[1]) == KeyOf(r.state.bitstreams[2])
            && ContentOf(r.state, 2) == Some(c2) && c2 !in r.state.store.Values
  {
    assert s.bitstreams.Keys == View(s).files.Keys == {1, 2};
    ViewFile(s, 1);
    ViewFile(s, 2);
    assert s.content == map[1 := c1, 2 := c2];
    assert s.bitstreams[1].filename == "y" && "y"[0] == 'y' && "x"[0] == 'x';
    NameTakenBackOverwrites(s, 1, 2, true);
    var t := Rename(s, 1, None, true).state;
    OnlyTheirKeys(s);
    assert forall k :: k in t.store ==> t.store[k] == c1;
  }

  // ----- imports -----

  /** The row is gone and the object is not. */
  lemma FailedImportStrands(data: Content)
    ensures var s := Step(NOTHING, NewItem(5, "uiuc"));
            var t := Step(s, Import(1, 5, "x", data, false));
            && Good(s) && t.bitstreams == map[] && t.store == map[PermanentKey("uiuc", 5, "x") := data] && !Good(t)
  {
    var s := Step(NOTHING, NewItem(5, "uiuc"));
    NothingGood();
    StepKeepsGoodIff(NOTHING, NewItem(5, "uiuc"));
    ImportKeepsGoodIff(s, 1, 5, "x", data, false);
  }

  /** Two files of one name, the first of which does not show up in the list: one key, and the first content gone. */
  lemma UnlistedImportOverwrites(c1: Content, c2: Content)
    requires c1 != c2
    ensures var s := Step(NOTHING, NewItem(5, "uiuc"));
            var r := AddAllUnlisted(s, {}, [NewFile(1, 5, "x", c1), NewFile(2, 5, "x", c2)]);
            && Good(s) && r.ok && 1 in r.state.bitstreams && 2 in r.state.bitstreams
            && KeyOf(r.state.bitstreams[1]) == KeyOf(r.state.bitstreams[2])
            && ContentOf(r.state, 1) == Some(c1) && c1 !in r.state.store.Values
  {
    var s := Step(NOTHING, NewItem(5, "uiuc"));
    NothingGood();
    StepKeepsGoodIff(NOTHING, NewItem(5, "uiuc"));
    var f, g := NewFile(1, 5, "x", c1), NewFile(2, 5, "x", c2);
    assert [f, g][1..] == [g] && [g][1..] == [];
    var t := AddUnlisted(s, {}, f).state;
    assert AddAllUnlisted(t, {}, [g]) == AddAllUnlisted(AddUnlisted(t, {}, g).state, {}, []);
    assert AddUnlisted(t, {}, g).state.store == map[PermanentKey("uiuc", 5, "x") := c2];
  }

  // ----- moves that fail half-way -----

  /** Two items, and a file of the first that has been uploaded. */
  function UploadHistory(c: Content): seq<Op> {
    [NewItem(1, "a"), NewItem(2, "a"), Create(11, 1, "f"), Put(11, c)]
  }

  function Uploaded(c: Content): State {
    var k := StagingKey("a", 1, "f");
    State(map[1 := "a", 2 := "a"], map[11 := Bitstream(1, "f", "f", Some(k), None)], map[k := c], map[11 := c])
  }

  /** The second item has a file too, and it has not been uploaded. */
  function WithSecondFile(c: Content): State {
    var s := Uploaded(c);
    s.(bitstreams := s.bitstreams[12 := Bitstream(2, "g", "g", Some(StagingKey("a", 2, "g")), None)])
  }

  lemma UploadedIsGood(c: Content)
    ensures Run(NOTHING, UploadHistory(c)) == Uploaded(c) && Good(Uploaded(c))
  {
    var k := StagingKey("a", 1, "f");
    KeyPresent("uploads", "a", 1, "f");
    var s1 := State(map[1 := "a"], map[], map[], map[]);
    var s2 := State(map[1 := "a", 2 := "a"], map[], map[], map[]);
    var s3 := s2.(bitstreams := map[11 := Bitstream(1, "f", "f", Some(k), None)]);
    assert Step(NOTHING, NewItem(1, "a")) == s1;
    assert Step(s1, NewItem(2, "a")) == s2;
    assert Step(s2, Create(11, 1, "f")) == s3;
    assert Step(s3, Put(11, c)) == Uploaded(c);
    RunSteps(NOTHING, UploadHistory(c), [s1, s2, s3, Uploaded(c)]);
    StepKeepsGoodIff(NOTHING, NewItem(1, "a"));
    StepKeepsGoodIff(s1, NewItem(2, "a"));
    StepKeepsGoodIff(s2, Create(11, 1, "f"));
    StepKeepsGoodIff(s3, Put(11, c));
  }

  lemma SecondFileIsGood(c: Content)
    ensures Step(Uploaded(c), Create(12, 2, "g")) == WithSecondFile(c) && Good(WithSecondFile(c))
  {
    UploadedIsGood(c);
    KeysOfTheTwoDiffer();
    assert Step(Uploaded(c), Create(12, 2, "g")) == WithSecondFile(c);
    StepKeepsGoodIff(Uploaded(c), Create(12, 2, "g"));
  }

  lemma KeysOfTheTwoDiffer()
    ensures StagingKey("a", 1, "f") != StagingKey("a", 2, "g")
  {
    if StagingKey("a", 1, "f") == StagingKey("a", 2, "g") {
      KeyInjective("uploads", "a", 1, "f", "uploads", "a", 2, "g");
    }
  }

  /** Two files, the second never uploaded: the move fails, and the first one's content is not at its key. */
  lemma HalfMoveLosesContent(c: Content)
    ensures var s, stops := WithSecondFile(c), [Rekey(11), Rekey(12)];
            var r := Relocate(s, {1, 2}, stops, "b");
            && Good(s) && Covers(s, {1, 2}, stops) && !r.ok
            && r.state.bitstreams == s.bitstreams && KeyOf(s.bitstreams[11]) !in r.state.store
  {
    var s, stops := WithSecondFile(c), [Rekey(11), Rekey(12)];
    SecondFileIsGood(c);
    assert Rekey(11) == stops[0] && Rekey(12) == stops[1];
    assert HomeOf(s)[11] == "a" && HomeOf(s)[12] == "a" && "a"[0] != "b"[0];
    assert !Passes(s, HomeOf(s), stops[1], "b");
    var b := FailedRelocationLoses(s, {1, 2}, stops, "b");
    assert b == 11;
  }

  /** A unit with one collection of two items: one with a file, and one with elements. */
  function TwoItems(elements: seq<ElementVisit>): seq<UnitVisit> {
    [UnitVisit(3, [CollectionVisit(4, true, [ItemWithFile(), ItemWithElements(elements)])])]
  }

  function ItemWithFile(): ItemVisit {
    ItemVisit(true, ItemElements(1, []), [FileVisit(11, true, true)], true)
  }

  function ItemWithElements(elements: seq<ElementVisit>): ItemVisit {
    ItemVisit(true, ItemElements(2, elements), [], true)
  }

  function LiveFlags(): Burial.State {
    Burial.State(map[], map[4 := Burial.Collection(false, None, {3})], map[3 := Burial.Unit(false, None)])
  }

  function Before(): seq<Statement> {
    [Save(true), Save(true), Save(true), Save(true)]
  }

  function After(es: Elements, elements: seq<ElementVisit>): seq<Statement> {
    [Save(true), Save(true), Save(true)] + OfElements(es, elements, 0) + [Save(true)]
  }

  lemma ItineraryIs(es: Elements, elements: seq<ElementVisit>)
    ensures Itinerary(LiveFlags(), es, TwoItems(elements)) == Before() + [NewKey(11)] + After(es, elements)
  {
    var first, second := ItemWithFile(), ItemWithElements(elements);
    var collection := CollectionVisit(4, true, [first, second]);
    OneVisit(FileVisit(11, true, true), OfFile);
    assert OfItem(es, first) == [Save(true), Save(true), NewKey(11), Save(true), Save(true)];
    assert OfItem(es, second) == [Save(true)] + OfElements(es, elements, 0) + [Save(true)];
    EachAppend([first], [second], ItemOf(es));
    OneVisit(first, ItemOf(es));
    OneVisit(second, ItemOf(es));
    assert [first] + [second] == [first, second];
    assert OfCollection(LiveFlags(), es, collection) == [Save(true)] + (OfItem(es, first) + OfItem(es, second));
    OneVisit(collection, CollectionOf(LiveFlags(), es));
    OneVisit(UnitVisit(3, [collection]), UnitOf(LiveFlags(), es));
  }

  lemma AfterIs(es: Elements, elements: seq<ElementVisit>)
    ensures forall b :: NewKey(b) in Before() + [NewKey(11)] + After(es, elements) <==> b == 11
    ensures ElementIds(Before() + [NewKey(11)] + After(es, elements)) == Ids(elements)
    ensures Save(false) !in Before() + [NewKey(11)] + After(es, elements) <==>
            AllSaved(elements) && NoTwins(es, Ids(elements))
  {
    var head, middle := Before() + [NewKey(11)] + [Save(true), Save(true), Save(true)], OfElements(es, elements, 0);
    assert Before() + [NewKey(11)] + After(es, elements) == head + middle + [Save(true)];
    ElementsOf(es, elements, 0);
    ElementsPassIff(es, elements, 0);
    NoElements(head);
    NoElements([Save(true)]);
    ElementIdsAppend(head, middle);
    ElementIdsAppend(head + middle, [Save(true)]);
  }

  /** The elements of the second item all go through. */
  ghost predicate ElementsPass(r: Registry, es: Elements, elements: seq<ElementVisit>, note: string) {
    && AllSaved(elements) && NoTwins(es, Ids(elements))
    && AllAdmitted(LedgerOf(r, 20, note), Wanted(r, es, Ids(elements)))
  }

  /** Every object is there, and yet the move fails and the content of file 11 is not at its key. */
  ghost predicate LosesFile(s: State, r: Registry, es: Elements, units: seq<UnitVisit>, note: string) {
    var stops := MoveStops(r, es, LiveFlags(), units, 20, note);
    var moved := Relocate(s, {1, 2}, stops, "b");
    && Good(s) && Covers(s, {1, 2}, stops) && !Careful(s, MoveTo({1, 2}, stops, "b"))
    && ObjectsThere(s, HomeOf(s), Itinerary(LiveFlags(), es, units), "b")
    && !moved.ok && moved.state.bitstreams == s.bitstreams
    && 11 in s.bitstreams && KeyOf(s.bitstreams[11]) !in moved.state.store
  }

  lemma RaisesTooLate(s: State, r: Registry, es: Elements, elements: seq<ElementVisit>, note: string)
    requires s.content.Keys == {11} && HomeOf(s) == map[11 := "a"]
    requires !ElementsPass(r, es, elements, note)
    ensures var stops := MoveStops(r, es, LiveFlags(), TwoItems(elements), 20, note);
            && ObjectsThere(s, HomeOf(s), Itinerary(LiveFlags(), es, TwoItems(elements)), "b")
            && !AllPass(s, HomeOf(s), stops, "b") && !RaisesBeforeMoving(s.content, HomeOf(s), stops, "b")
  {
    var l := LedgerOf(r, 20, note);
    ItineraryIs(es, elements);
    AfterIs(es, elements);
    assert "a"[0] != "b"[0];
    StopsPass(s, HomeOf(s), l, r, es, Before() + [NewKey(11)] + After(es, elements), "b");
    MovesFirst(s.content, HomeOf(s), l, r, es, Before(), 11, After(es, elements), "b");
  }

  lemma RefusedTooLate(s: State, r: Registry, es: Elements, elements: seq<ElementVisit>, note: string)
    requires Good(s) && s.content.Keys == {11} && HomeOf(s) == map[11 := "a"] && {1, 2} <= s.institutionOf.Keys
    requires Covers(s, {1, 2}, MoveStops(r, es, LiveFlags(), TwoItems(elements), 20, note))
    requires !ElementsPass(r, es, elements, note)
    ensures LosesFile(s, r, es, TwoItems(elements), note)
  {
    RaisesTooLate(s, r, es, elements, note);
    var b := FailedRelocationLoses(s, {1, 2}, MoveStops(r, es, LiveFlags(), TwoItems(elements), 20, note), "b");
    assert b == 11;
  }

  lemma OnlyFile(c: Content, r: Registry, es: Elements, elements: seq<ElementVisit>, note: string)
    ensures Covers(Uploaded(c), {1, 2}, MoveStops(r, es, LiveFlags(), TwoItems(elements), 20, note))
  {
    ItineraryIs(es, elements);
    AfterIs(es, elements);
    StopsKeys(LedgerOf(r, 20, note), r, es, Before() + [NewKey(11)] + After(es, elements));
  }

  /** Whatever it is that refuses an element of the second item, the content of the first item's file is lost. */
  lemma RefusedElementLoses(c: Content, r: Registry, es: Elements, elements: seq<ElementVisit>, note: string)
    requires !ElementsPass(r, es, elements, note)
    ensures LosesFile(Uploaded(c), r, es, TwoItems(elements), note)
  {
    UploadedIsGood(c);
    OnlyFile(c, r, es, elements, note);
    RefusedTooLate(Uploaded(c), r, es, elements, note);
  }

  lemma NothingElseRefused(es: Elements, elements: seq<ElementVisit>)
    ensures VisitsPass(LiveFlags(), es, TwoItems(elements)) <==> AllSaved(elements) && NoTwins(es, Ids(elements))
    ensures ElementIds(Itinerary(LiveFlags(), es, TwoItems(elements))) == Ids(elements)
  {
    VisitsPassIff(LiveFlags(), es, TwoItems(elements));
    ItineraryIs(es, elements);
    AfterIs(es, elements);
  }

  /** No visit is refused, and only the clone of an element is; the first item's content is lost. */
  lemma ClashingUriLosesContent(c: Content, uri: string, note: string)
    ensures var r, es, elements := ClashingRegistry(uri), ClashingElements(), [ElementVisit(7, true)];
            && Sound(r, es) && Loads(es, ItemElements(2, elements))
            && VisitsPass(LiveFlags(), es, TwoItems(elements))
            && LosesFile(Uploaded(c), r, es, TwoItems(elements), note)
  {
    var es, elements := ClashingElements(), [ElementVisit(7, true)];
    assert Ids(elements) == [7];
    ClashingUriRefused(uri, note);
    NothingElseRefused(es, elements);
    RefusedElementLoses(c, ClashingRegistry(uri), es, elements, note);
  }

  function EqualVisits(): seq<ElementVisit> {
    [ElementVisit(7, true), ElementVisit(8, true)]
  }

  lemma EqualElementsLoad()
    ensures Ids(EqualVisits()) == [7, 8] && AllSaved(EqualVisits())
    ensures Loads(EqualElements(), ItemElements(2, EqualVisits()))
  {}

  lemma EqualElementsFit(note: string)
    ensures ElementIds(Itinerary(LiveFlags(), EqualElements(), TwoItems(EqualVisits()))) == [7, 8]
    ensures Fits(LedgerOf(PlainRegistry(), 20, note), Wanted(PlainRegistry(), EqualElements(), [7, 8]))
  {
    EqualElementsLoad();
    EqualElementsRefused(note);
    NothingElseRefused(EqualElements(), EqualVisits());
    AdmittedIffFits(LedgerOf(PlainRegistry(), 20, note), Wanted(PlainRegistry(), EqualElements(), [7, 8]));
  }

  /** Every name is known at the destination, but two elements of an item are equal; the same content is lost. */
  lemma EqualElementsLoseContent(c: Content, note: string)
    ensures var r, es, units := PlainRegistry(), EqualElements(), TwoItems(EqualVisits());
            && Sound(r, es) && Loads(es, ItemElements(2, EqualVisits())) && AllSaved(EqualVisits())
            && Fits(LedgerOf(r, 20, note), Wanted(r, es, ElementIds(Itinerary(LiveFlags(), es, units))))
            && LosesFile(Uploaded(c), r, es, units, note)
  {
    EqualElementsLoad();
    EqualElementsFit(note);
    EqualElementsRefused(note);
    RefusedElementLoses(c, PlainRegistry(), EqualElements(), EqualVisits(), note);
  }
}
