/**
  What a user sees of the files: names, area and content, without keys. The rows
  and the object store together are a refinement of this simpler model.
 */
module Files {
  import opened Storage
  import opened StorageMoves
  import opened StorageRuns
  import opened Wrappers

  datatype File = File(item: nat, filename: string, original: string, archived: bool, content: Option<Content>)

  datatype Shelf = Shelf(institutionOf: map<nat, string>, files: map<int, File>)

  // ----- the simpler model -----

  predicate Taken(v: Shelf, id: int, item: nat, filename: string) {
    exists b :: b in v.files && b != id && v.files[b].item == item && v.files[b].filename == filename
  }

  predicate Elsewhere(v: Shelf, b: int, institution: string)
    requires b in v.files
  {
    v.files[b].item in v.institutionOf && v.institutionOf[v.files[b].item] != institution
  }

  /** Every file of the items that is in another institution has been uploaded. */
  predicate Ready(v: Shelf, items: set<nat>, institution: string) {
    forall b :: b in v.files && v.files[b].item in items && Elsewhere(v, b, institution) ==> v.files[b].content.Some?
  }

  function FileStep(v: Shelf, op: Op): Shelf {
    match op
    case NewItem(item, institution) =>
      if item in v.institutionOf || '/' in institution then v
      else v.(institutionOf := v.institutionOf[item := institution])
    case Create(id, item, filename) =>
      if id in v.files || item !in v.institutionOf || Taken(v, id, item, filename) then v
      else v.(files := v.files[id := File(item, filename, filename, false, None)])
    case Import(id, item, filename, data, completes) =>
      if !completes || id in v.files || item !in v.institutionOf || Taken(v, id, item, filename) then v
      else v.(files := v.files[id := File(item, filename, filename, true, Some(data))])
    case Put(id, data) =>
      if id !in v.files then v else v.(files := v.files[id := v.files[id].(content := Some(data))])
    case SetFilename(id, filename, completes) =>
      if !completes || id !in v.files || v.files[id].content.None? then v
      else
        var name := if filename.Some? then filename.value else v.files[id].original;
        if Taken(v, id, v.files[id].item, name) then v
        else v.(files := v.files[id := v.files[id].(filename := name)])
    case Approve(id) =>
      if id !in v.files || v.files[id].content.None? then v
      else v.(files := v.files[id := v.files[id].(archived := true)])
    case Delete(id, completes) => if completes then v.(files := v.files - {id}) else v
    case MoveTo(items, stops, institution) =>
      if !Ready(v, items, institution) || Check(false) in stops then v
      else v.(institutionOf := Reassigned(v.institutionOf, items, institution))
  }

  function FileRun(v: Shelf, ops: seq<Op>): Shelf
    decreases ops
  {
    if ops == [] then v else FileRun(FileStep(v, ops[0]), ops[1..])
  }

  // ----- how the rows and the store show it -----

  /** The object at a bitstream's effective key. */
  function Seen(s: State, b: Bitstream): Option<Content> {
    var key := EffectiveKey(b);
    if key.Some? && key.value in s.store then Some(s.store[key.value]) else None
  }

  function View(s: State): Shelf {
    Shelf(s.institutionOf, map b | b in s.bitstreams ::
      File(s.bitstreams[b].item, s.bitstreams[b].filename, s.bitstreams[b].original,
           s.bitstreams[b].permanentKey.Some?, Seen(s, s.bitstreams[b])))
  }

  ghost function PlainFile(s: State, b: int): File
    requires b in s.bitstreams
  {
    File(s.bitstreams[b].item, s.bitstreams[b].filename, s.bitstreams[b].original,
         s.bitstreams[b].permanentKey.Some?, ContentOf(s, b))
  }

  /** Under the invariant the store shows each file its own content. */
  lemma SeenIsContent(s: State, b: int)
    requires Good(s) && b in s.bitstreams
    ensures Seen(s, s.bitstreams[b]) == ContentOf(s, b)
  {
    GoodRow(s, b);
    KeyedPresent(HomeOf(s)[b], s.bitstreams[b]);
    LocatedInjective(HomeOf(s), s.bitstreams);
    var keys := KeysOf(s.bitstreams);
    assert keys[b] == KeyOf(s.bitstreams[b]);
  }

  lemma ViewFile(s: State, b: int)
    requires Good(s) && b in s.bitstreams
    ensures View(s).files[b] == PlainFile(s, b)
  {
    SeenIsContent(s, b);
  }

  /** A view is known by its institutions, its IDs and its files. */
  lemma ViewIs(s: State, v: Shelf)
    requires Good(s) && v.institutionOf == s.institutionOf && v.files.Keys == s.bitstreams.Keys
    requires forall b :: b in s.bitstreams ==> v.files[b] == PlainFile(s, b)
    ensures View(s) == v
  {
    var files := View(s).files;
    forall b ensures b in files <==> b in v.files { assert b in v.files.Keys <==> b in s.bitstreams.Keys; }
    forall b | b in files ensures files[b] == v.files[b] { ViewFile(s, b); }
    assert files == v.files;
  }

  lemma TakenIff(s: State, id: int, item: nat, filename: string)
    requires Good(s)
    ensures Taken(View(s), id, item, filename) <==> NameTaken(s, id, item, filename)
  {}

  // ----- one step -----

  /** Only the row or the content of `id` differs. */
  ghost predicate OneRow(s: State, s': State, id: int) {
    && s'.institutionOf == s.institutionOf && s'.bitstreams.Keys == s.bitstreams.Keys + {id}
    && (forall b :: b in s.bitstreams && b != id ==>
          s'.bitstreams[b] == s.bitstreams[b] && ContentOf(s', b) == ContentOf(s, b))
  }

  lemma OneFileChanges(s: State, s': State, id: int)
    requires Good(s) && Good(s') && OneRow(s, s', id)
    ensures View(s') == View(s).(files := View(s).files[id := PlainFile(s', id)])
  {
    var v := View(s).(files := View(s).files[id := PlainFile(s', id)]);
    forall b | b in s'.bitstreams ensures v.files[b] == PlainFile(s', b) {
      if b != id { ViewFile(s, b); }
    }
    ViewIs(s', v);
  }

  lemma CreateShows(s: State, id: int, item: nat, filename: string)
    requires Good(s)
    ensures View(CreateInStaging(s, id, item, filename).state) == FileStep(View(s), Create(id, item, filename))
  {
    var r := CreateInStaging(s, id, item, filename);
    CreateKeepsGood(s, id, item, filename);
    TakenIff(s, id, item, filename);
    if r.ok {
      NoContentYet(s, id);
      OneFileChanges(s, r.state, id);
    }
  }

  lemma ImportShows(s: State, id: int, item: nat, filename: string, data: Content, completes: bool)
    requires Good(s) && Careful(s, Import(id, item, filename, data, completes))
    ensures View(ImportFile(s, id, item, filename, data, completes).state) ==
            FileStep(View(s), Import(id, item, filename, data, completes))
  {
    var s' := ImportFile(s, id, item, filename, data, completes).state;
    ImportKeepsGoodIff(s, id, item, filename, data, completes);
    TakenIff(s, id, item, filename);
    if completes && Importable(s, id, item, filename) {
      ImportedRow(s, id, item, filename, data);
      OneFileChanges(s, s', id);
    }
  }

  lemma ImportedRow(s: State, id: int, item: nat, filename: string, data: Content)
    requires Importable(s, id, item, filename)
    ensures OneRow(s, ImportRow(s, id, item, filename, data).state, id)
    ensures PlainFile(ImportRow(s, id, item, filename, data).state, id) ==
            File(item, filename, filename, true, Some(data))
  {}

  lemma PutShows(s: State, id: int, data: Content)
    requires Good(s)
    ensures View(Upload(s, id, data).state) == FileStep(View(s), Put(id, data))
  {
    if id in s.bitstreams {
      UploadKeepsGood(s, id, data);
      ViewFile(s, id);
      UploadedRow(s, id, data);
      OneFileChanges(s, Upload(s, id, data).state, id);
    }
  }

  lemma UploadedRow(s: State, id: int, data: Content)
    requires id in s.bitstreams && Upload(s, id, data).ok
    ensures OneRow(s, Upload(s, id, data).state, id)
    ensures PlainFile(Upload(s, id, data).state, id) == PlainFile(s, id).(content := Some(data))
  {}

  lemma DeleteShows(s: State, id: int, completes: bool)
    requires Good(s) && Careful(s, Delete(id, completes))
    ensures View(Destroy(s, id, completes).state) == FileStep(View(s), Delete(id, completes))
  {
    if id !in s.bitstreams {
      assert View(s).files - {id} == View(s).files;
    } else {
      DestroyKeepsGoodIff(s, id, completes);
      if completes { DestroyRowShows(s, id); }
    }
  }

  lemma DestroyRowShows(s: State, id: int)
    requires Good(s) && id in s.bitstreams
    ensures View(DestroyRow(s, id).state) == View(s).(files := View(s).files - {id})
  {
    var s' := DestroyRow(s, id).state;
    var v := View(s).(files := View(s).files - {id});
    DestroyRowKeepsGood(s, id);
    forall b | b in s'.bitstreams ensures v.files[b] == PlainFile(s', b) { ViewFile(s, b); }
    ViewIs(s', v);
  }

  lemma NewItemShows(s: State, item: nat, institution: string)
    requires Good(s)
    ensures View(Step(s, NewItem(item, institution))) == FileStep(View(s), NewItem(item, institution))
  {
    NewItemKeepsGood(s, item, institution);
    if item !in s.institutionOf && '/' !in institution {
      var institutions := s.institutionOf[item := institution];
      MovedView(s, s.(institutionOf := institutions), View(s).(institutionOf := institutions));
    }
  }

  lemma ApproveShows(s: State, id: int)
    requires Good(s)
    ensures View(MoveIntoPermanentStorage(s, id).state) == FileStep(View(s), Approve(id))
  {
    if id in s.bitstreams {
      MoveIntoPermanentKeepsGood(s, id);
      StagedOrArchived(s, id);
      if s.bitstreams[id].stagingKey.Some? && id in s.content {
        ApprovedRow(s, id);
        ApprovedShows(s, MoveIntoPermanentStorage(s, id).state, id);
      }
    }
  }

  lemma ApprovedShows(s: State, s': State, id: int)
    requires Good(s) && Good(s') && id in s.content && OneRow(s, s', id)
    requires id in s.bitstreams && PlainFile(s', id) == PlainFile(s, id).(archived := true)
    ensures View(s') == FileStep(View(s), Approve(id))
  {
    ViewFile(s, id);
    OneFileChanges(s, s', id);
    FileArchived(View(s), id);
  }

  lemma FileArchived(v: Shelf, id: int)
    requires id in v.files && v.files[id].content.Some?
    ensures FileStep(v, Approve(id)) == v.(files := v.files[id := v.files[id].(archived := true)])
  {}

  lemma StagedOrArchived(s: State, id: int)
    requires Good(s) && id in s.bitstreams
    ensures View(s).files[id] == PlainFile(s, id)
    ensures s.bitstreams[id].stagingKey.Some? <==> !PlainFile(s, id).archived
  {
    ViewFile(s, id);
    GoodRow(s, id);
  }

  lemma ApprovedRow(s: State, id: int)
    requires id in s.bitstreams && MoveIntoPermanentStorage(s, id).ok
    ensures OneRow(s, MoveIntoPermanentStorage(s, id).state, id)
    ensures PlainFile(MoveIntoPermanentStorage(s, id).state, id) == PlainFile(s, id).(archived := true)
  {}

  lemma RenameShows(s: State, id: int, filename: Option<string>, completes: bool)
    requires Good(s) && Careful(s, SetFilename(id, filename, completes))
    ensures View(Rename(s, id, filename, completes).state) == FileStep(View(s), SetFilename(id, filename, completes))
  {
    if id in s.bitstreams {
      RenameKeepsGoodIff(s, id, filename, completes);
      if completes { RenameRowShows(s, id, filename); }
    }
  }

  lemma RenameRowShows(s: State, id: int, filename: Option<string>)
    requires Good(s) && Careful(s, SetFilename(id, filename, true)) && id in s.bitstreams
    ensures View(Rename(s, id, filename, true).state) == FileStep(View(s), SetFilename(id, filename, true))
  {
    var r, name := Rename(s, id, filename, true), NewName(s.bitstreams[id], filename);
    RenameKeepsGoodIff(s, id, filename, true);
    TakenIff(s, id, s.bitstreams[id].item, name);
    ViewFile(s, id);
    GoodRow(s, id);
    if name == s.bitstreams[id].filename {
      OwnNameFree(s, HomeOf(s), id);
      assert View(s).files[id := View(s).files[id]] == View(s).files;
    } else if r.ok {
      RenamedRow(s, HomeOf(s)[id], id, filename);
      OneFileChanges(s, r.state, id);
      FileRenamed(View(s), id, filename);
    }
  }

  lemma FileRenamed(v: Shelf, id: int, filename: Option<string>)
    requires id in v.files && v.files[id].content.Some?
    requires var name := if filename.Some? then filename.value else v.files[id].original;
             !Taken(v, id, v.files[id].item, name)
    ensures FileStep(v, SetFilename(id, filename, true)) ==
            v.(files := v.files[id := v.files[id].(filename :=
              if filename.Some? then filename.value else v.files[id].original)])
  {}

  lemma RenamedRow(s: State, institution: string, id: int, filename: Option<string>)
    requires id in s.bitstreams && RenameRow(s, id, filename).ok && Keyed(institution, s.bitstreams[id])
    requires NewName(s.bitstreams[id], filename) != s.bitstreams[id].filename
    ensures OneRow(s, RenameRow(s, id, filename).state, id)
    ensures PlainFile(RenameRow(s, id, filename).state, id) ==
            PlainFile(s, id).(filename := NewName(s.bitstreams[id], filename))
  {
    KeyedPresent(institution, s.bitstreams[id]);
  }

  lemma ReadyIff(s: State, items: set<nat>, stops: seq<Stop>, institution: string)
    requires Good(s) && Covers(s, items, stops)
    ensures Ready(View(s), items, institution) && Check(false) !in stops <==>
            AllPass(s, HomeOf(s), stops, institution)
  {
    var v := View(s);
    forall b | b in s.bitstreams
      ensures b in v.files && v.files[b] == PlainFile(s, b)
      ensures v.files[b].item in v.institutionOf && HomeOf(s)[b] == v.institutionOf[v.files[b].item]
    {
      ViewFile(s, b);
      GoodRow(s, b);
    }
    if Ready(v, items, institution) && Check(false) !in stops {
      forall i | 0 <= i < |stops| ensures Passes(s, HomeOf(s), stops[i], institution) {
        assert stops[i] in stops && (stops[i].Rekey? ==> stops[i].id in v.files);
      }
    }
    if AllPass(s, HomeOf(s), stops, institution) {
      forall b | b in v.files && v.files[b].item in items && Elsewhere(v, b, institution)
        ensures v.files[b].content.Some?
      {
        var i :| 0 <= i < |stops| && stops[i] == Rekey(b);
        assert Passes(s, HomeOf(s), stops[i], institution);
      }
    }
  }

  lemma MoveShows(s: State, items: set<nat>, stops: seq<Stop>, institution: string)
    requires Good(s) && WellFormed(s, MoveTo(items, stops, institution))
    requires Careful(s, MoveTo(items, stops, institution))
    ensures View(Relocate(s, items, stops, institution).state) == FileStep(View(s), MoveTo(items, stops, institution))
  {
    var r := Relocate(s, items, stops, institution);
    RelocateKeepsGoodIff(s, items, stops, institution);
    ReadyIff(s, items, stops, institution);
    MovedView(s, r.state, FileStep(View(s), MoveTo(items, stops, institution)));
  }

  lemma MovedView(s: State, s': State, v: Shelf)
    requires Good(s) && Good(s') && v.institutionOf == s'.institutionOf && v.files == View(s).files
    requires SameFiles(s'.(institutionOf := s.institutionOf), s) && SameAreas(s, s')
    ensures View(s') == v
  {
    forall b | b in s'.bitstreams ensures v.files[b] == PlainFile(s', b) { ViewFile(s, b); }
    ViewIs(s', v);
  }

  /** A careful step on rows and objects looks like the step on files. */
  lemma StepRefinesFiles(s: State, op: Op)
    requires Good(s) && WellFormed(s, op) && Careful(s, op)
    ensures View(Step(s, op)) == FileStep(View(s), op)
  {
    match op
    case NewItem(item, institution) => NewItemShows(s, item, institution);
    case Create(id, item, filename) => CreateShows(s, id, item, filename);
    case Import(id, item, filename, data, completes) => ImportShows(s, id, item, filename, data, completes);
    case Put(id, data) => PutShows(s, id, data);
    case SetFilename(id, filename, completes) => RenameShows(s, id, filename, completes);
    case Approve(id) => ApproveShows(s, id);
    case Delete(id, completes) => DeleteShows(s, id, completes);
    case MoveTo(items, stops, institution) => MoveShows(s, items, stops, institution);
  }

  /** Over a whole careful run, reading files by their keys is reading the simpler model. */
  lemma {:induction false} RunRefinesFiles(s: State, ops: seq<Op>)
    requires Good(s) && AllWellFormed(s, ops) && AllCareful(s, ops)
    ensures View(Run(s, ops)) == FileRun(View(s), ops)
    decreases ops
  {
    if ops != [] {
      StepRefinesFiles(s, ops[0]);
      StepKeepsGoodIff(s, ops[0]);
      RunRefinesFiles(Step(s, ops[0]), ops[1..]);
    }
  }
}
