/** The same operations step by step, on rows and on an object store that change in place. */
module Repository {
  import opened Imports
  import opened Storage
  import opened StorageKeys
  import opened StorageMoves
  import opened StorageRuns
  import opened Text
  import opened Wrappers

  class ObjectStore {
    var objects: Objects
    /** Every call of `Move` so far. */
    ghost var calls: seq<Call>

    constructor ()
      ensures objects == map[] && calls == []
    {
      objects, calls := map[], [];
    }

    /** Copies an object; a blank key or a missing source raises. */
    method CopyObject(source: string, target: string) returns (ok: bool)
      modifies this`objects
      ensures ok <==> !Blank(source) && !Blank(target) && source in old(objects)
      ensures objects == if ok then old(objects)[target := old(objects)[source]] else old(objects)
    {
      if Blank(source) || Blank(target) || source !in objects { return false; }
      objects := objects[target := objects[source]];
      ok := true;
    }

    method PutObject(key: string, data: Content)
      modifies this`objects
      ensures objects == old(objects)[key := data]
    {
      objects := objects[key := data];
    }

    method DeleteObject(key: string)
      modifies this`objects
      ensures objects == old(objects) - {key}
    {
      objects := objects - {key};
    }

    method Move(source: string, target: string) returns (ok: bool)
      modifies this
      ensures ok <==> !Blank(source) && !Blank(target) && MoveObject(old(objects), source, target).Some?
      ensures objects == if ok then MoveObject(old(objects), source, target).value else old(objects)
      ensures calls == old(calls) + [Call(source, target, old(objects))]
    {
      calls := calls + [Call(source, target, objects)];
      ok := CopyObject(source, target);
      if ok { DeleteObject(source); }
    }
  }

  lemma KeyForPresent(institution: string, b: Bitstream)
    ensures !Blank(KeyFor(institution, b))
  {
    KeyPresent(if Present(b.permanentKey) then "storage" else "uploads", institution, b.item, b.filename);
  }

  class BitstreamTable {
    const store: ObjectStore
    var institutionOf: map<nat, string>
    var bitstreams: map<int, Bitstream>
    ghost var content: map<int, Content>

    ghost function Now(): State
      reads this, store
    {
      State(institutionOf, bitstreams, store.objects, content)
    }

    constructor ()
      ensures fresh(store) && Now() == NOTHING && Good(Now()) && store.calls == []
    {
      store := new ObjectStore();
      institutionOf, bitstreams, content := map[], map[], map[];
    }

    method Create(id: int, item: nat, filename: string) returns (ok: bool)
      modifies this
      ensures Outcome(Now(), ok) == CreateInStaging(old(Now()), id, item, filename)
      ensures old(Good(Now())) ==> Good(Now())
    {
      if Good(Now()) { CreateKeepsGood(Now(), id, item, filename); }
      if id in bitstreams || item !in institutionOf { return false; }
      if exists b :: b in bitstreams && b != id && bitstreams[b].item == item && bitstreams[b].filename == filename {
        return false;
      }
      var key := StagingKey(institutionOf[item], item, filename);
      if exists b :: b in bitstreams && b != id && bitstreams[b].stagingKey == Some(key) { return false; }
      bitstreams := bitstreams[id := Bitstream(item, filename, filename, Some(key), None)];
      ok := true;
    }

    /** Adds a row and then its object, unless the item has a file of that name. */
    method AddFile(id: int, item: nat, filename: string, data: Content) returns (ok: bool)
      modifies this`bitstreams, this`content, store`objects
      ensures Outcome(Now(), ok) == ImportRow(old(Now()), id, item, filename, data)
    {
      if id in bitstreams || item !in institutionOf { return false; }
      ok := true;
      if exists b :: b in bitstreams && b != id && bitstreams[b].item == item && bitstreams[b].filename == filename {
        return;
      }
      var key := PermanentKey(institutionOf[item], item, filename);
      bitstreams := bitstreams[id := Bitstream(item, filename, filename, None, Some(key))];
      store.PutObject(key, data);
      content := content[id := data];
    }

    /** Imports one file; `completes` is whether the rest of the import succeeds. */
    method Import(id: int, item: nat, filename: string, data: Content, completes: bool) returns (ok: bool)
      modifies this, store`objects
      ensures Outcome(Now(), ok) == ImportFile(old(Now()), id, item, filename, data, completes)
      ensures old(Good(Now())) ==>
                (Good(Now()) <==> old(Careful(Now(), Op.Import(id, item, filename, data, completes))))
    {
      if Good(Now()) { ImportKeepsGoodIff(Now(), id, item, filename, data, completes); }
      var rowsBefore := bitstreams;
      ghost var contentBefore := content;
      ok := AddFile(id, item, filename, data);
      if ok && !completes {
        bitstreams := rowsBefore;
        content := contentBefore;
        ok := false;
      }
    }

    /** Imports files inside a transaction, which covers the rows and not the store. */
    method ImportFiles(files: seq<NewFile>, completes: bool) returns (ok: bool)
      modifies this, store`objects
      ensures Outcome(Now(), ok) == ImportBatch(old(Now()), files, completes)
      ensures old(Good(Now())) ==> (Good(Now()) <==> ok || AddedKeys(old(Now()), files) == {})
    {
      if Good(Now()) { BatchKeepsGoodIff(Now(), files, completes); }
      var rowsBefore := bitstreams;
      ghost var contentBefore := content;
      ok := AddFiles(files);
      if !ok || !completes {
        bitstreams := rowsBefore;
        content := contentBefore;
        ok := false;
      }
    }

    method AddFiles(files: seq<NewFile>) returns (ok: bool)
      modifies this`bitstreams, this`content, store`objects
      ensures Outcome(Now(), ok) == ImportAll(old(Now()), files)
    {
      for i := 0 to |files|
        invariant ImportAll(Now(), files[i..]) == ImportAll(old(Now()), files)
      {
        assert files[i..][0] == files[i] && files[i..][1..] == files[i + 1..];
        ok := AddFile(files[i].id, files[i].item, files[i].filename, files[i].data);
        if !ok { return; }
      }
      ok := true;
    }

    /** The client's PUT to the bitstream's current key. */
    method Put(id: int, data: Content) returns (ok: bool)
      modifies this, store`objects
      ensures Outcome(Now(), ok) == Upload(old(Now()), id, data)
      ensures old(Good(Now())) ==> Good(Now())
    {
      if id in bitstreams && Good(Now()) { UploadKeepsGood(Now(), id, data); }
      if id !in bitstreams { return false; }
      var key := EffectiveKey(bitstreams[id]);
      if key.None? { return false; }
      store.PutObject(key.value, data);
      content := content[id := data];
      ok := true;
    }

    method MoveAndSave(id: int, row: Bitstream, source: string, target: string) returns (ok: bool)
      requires id in bitstreams && !Blank(source) && !Blank(target)
      modifies this`bitstreams, store
      ensures Outcome(Now(), ok) == SaveMoved(old(Now()), id, row, source, target)
      ensures store.calls == old(store.calls) + [Call(source, target, old(store.objects))]
    {
      ok := store.Move(source, target);
      if !ok { return; }
      if row.stagingKey.Some? && exists b :: b in bitstreams && b != id && bitstreams[b].stagingKey == row.stagingKey {
        return false;
      }
      bitstreams := bitstreams[id := row];
    }

    /** Saves a new filename; `completes` says whether the rest of the save goes through. */
    method UpdateFilename(id: int, filename: Option<string>, completes: bool) returns (ok: bool)
      modifies this, store
      ensures Outcome(Now(), ok) == Rename(old(Now()), id, filename, completes)
      ensures store.calls == old(store.calls) + RenameCalls(old(Now()), id, filename)
      ensures old(Good(Now())) ==> (Good(Now()) <==> old(Careful(Now(), SetFilename(id, filename, completes))))
    {
      if id in bitstreams && Good(Now()) { RenameKeepsGoodIff(Now(), id, filename, completes); }
      var rowsBefore := bitstreams;
      ok := FollowFilename(id, filename);
      if ok && !completes {
        bitstreams := rowsBefore;
        ok := false;
      }
    }

    /** Moves the stored object along with a new filename and saves the row. */
    method FollowFilename(id: int, filename: Option<string>) returns (ok: bool)
      modifies this`bitstreams, store
      ensures Outcome(Now(), ok) == RenameRow(old(Now()), id, filename)
      ensures store.calls == old(store.calls) + RenameCalls(old(Now()), id, filename)
    {
      if id !in bitstreams { return false; }
      var b := bitstreams[id];
      if filename.Some? && filename.value != b.filename {
        if exists c :: c in bitstreams && c != id && bitstreams[c].item == b.item
                       && bitstreams[c].filename == filename.value {
          return false;
        }
      }
      var name := if filename.Some? then filename.value else b.original;
      if name == b.filename { return true; }
      if b.item !in institutionOf { return false; }
      ok := SaveName(id, name);
    }

    /** Saves a name that differs from the old one, without looking at other names. */
    method SaveName(id: int, name: string) returns (ok: bool)
      requires id in bitstreams && bitstreams[id].item in institutionOf && name != bitstreams[id].filename
      modifies this`bitstreams, store
      ensures forall filename: Option<string> ::
                NewName(old(bitstreams[id]), filename) == name && !NameRefused(old(Now()), id, filename) ==>
                  && Outcome(Now(), ok) == RenameRow(old(Now()), id, filename)
                  && store.calls == old(store.calls) + RenameCalls(old(Now()), id, filename)
    {
      var b := bitstreams[id];
      var row := b.(filename := name);
      var source := EffectiveKey(b);
      if Blank(b.filename) || source.None? {
        bitstreams := bitstreams[id := row];
        return true;
      }
      var target := KeyFor(institutionOf[b.item], row);
      KeyForPresent(institutionOf[b.item], row);
      ok := MoveAndSave(id, RowIn(institutionOf[b.item], row), source.value, target);
    }

    method Archive(id: int) returns (ok: bool)
      modifies this`bitstreams, store
      ensures Outcome(Now(), ok) == MoveIntoPermanentStorage(old(Now()), id)
      ensures store.calls == old(store.calls) + ApprovalCalls(old(Now()), id)
      ensures old(Good(Now())) ==> Good(Now())
    {
      if id in bitstreams && Good(Now()) { MoveIntoPermanentKeepsGood(Now(), id); }
      if id !in bitstreams { return false; }
      var b := bitstreams[id];
      if !Present(b.stagingKey) || b.item !in institutionOf { return false; }
      var target := PermanentKey(institutionOf[b.item], b.item, b.filename);
      KeyPresent("storage", institutionOf[b.item], b.item, b.filename);
      ok := MoveAndSave(id, Archived(institutionOf[b.item], b), b.stagingKey.value, target);
    }

    /** Moves an item's staged bitstreams, in the given order, into permanent storage. */
    method ApproveItem(ids: seq<int>) returns (ok: bool)
      modifies this`bitstreams, store
      ensures Outcome(Now(), ok) == ApproveAll(old(Now()), ids)
      ensures old(Good(Now())) ==> Good(Now())
    {
      for i := 0 to |ids|
        invariant ApproveAll(Now(), ids[i..]) == ApproveAll(old(Now()), ids)
        invariant old(Good(Now())) ==> Good(Now())
      {
        assert ids[i..][0] == ids[i] && ids[i..][1..] == ids[i + 1..];
        var done := Archive(ids[i]);
        if !done { return false; }
      }
      ok := true;
    }

    method Delete(id: int, completes: bool) returns (ok: bool)
      modifies this, store`objects
      ensures Outcome(Now(), ok) == Destroy(old(Now()), id, completes)
      ensures old(Good(Now())) ==> (Good(Now()) <==> old(Careful(Now(), Op.Delete(id, completes))))
    {
      if Good(Now()) {
        if id in bitstreams { DestroyKeepsGoodIff(Now(), id, completes); } else { NoContentYet(Now(), id); }
      }
      if id !in bitstreams { return false; }
      var b := bitstreams[id];
      if Present(b.stagingKey) { store.DeleteObject(b.stagingKey.value); }
      if Present(b.permanentKey) { store.DeleteObject(b.permanentKey.value); }
      if completes {
        bitstreams := bitstreams - {id};
        content := content - {id};
      }
      ok := completes;
    }

    method RehomeOne(id: int, institution: string) returns (ok: bool)
      modifies this`bitstreams, store
      ensures Outcome(Now(), ok) == Rehome(old(Now()), id, institution)
      ensures store.calls == old(store.calls) + RehomeCalls(old(Now()), id, institution)
    {
      if id !in bitstreams { return true; }
      var row := RowIn(institution, bitstreams[id]);
      var source, target := EffectiveKey(bitstreams[id]), EffectiveKey(row);
      if source.Some? && target.Some? && source != target {
        ok := MoveAndSave(id, row, source.value, target.value);
      } else {
        bitstreams := bitstreams[id := row];
        ok := true;
      }
    }

    method MakeOne(stop: Stop, institution: string) returns (ok: bool)
      modifies this`bitstreams, store
      ensures Outcome(Now(), ok) == MakeStop(old(Now()), stop, institution)
      ensures store.calls == old(store.calls) + StopCalls(old(Now()), stop, institution)
    {
      match stop {
        case Check(passes) => ok := passes;
        case Rekey(id) => ok := RehomeOne(id, institution);
      }
    }

    /** Moves items to another institution inside a transaction, which covers the rows and not the store. */
    method MoveItems(items: set<nat>, stops: seq<Stop>, institution: string) returns (ok: bool)
      modifies this, store
      ensures Outcome(Now(), ok) == Relocate(old(Now()), items, stops, institution)
      ensures store.calls == old(store.calls) + RelocationCalls(old(Now()), items, stops, institution)
      ensures old(Good(Now()) && WellFormed(Now(), MoveTo(items, stops, institution))) ==>
                (Good(Now()) <==> old(Careful(Now(), MoveTo(items, stops, institution))))
    {
      if Good(Now()) && WellFormed(Now(), MoveTo(items, stops, institution)) {
        RelocateKeepsGoodIff(Now(), items, stops, institution);
      }
      var institutionsBefore, rowsBefore := institutionOf, bitstreams;
      institutionOf := Reassigned(institutionOf, items, institution);
      ok := MakeAll(stops, institution);
      if !ok { institutionOf, bitstreams := institutionsBefore, rowsBefore; }
    }

    method MakeAll(stops: seq<Stop>, institution: string) returns (ok: bool)
      modifies this`bitstreams, store
      ensures Outcome(Now(), ok) == MakeStops(old(Now()), stops, institution)
      ensures store.calls == old(store.calls) +
                CallsUntilRaised(old(Now()), stops, (t, stop) => MakeStop(t, stop, institution),
                                 (t, stop) => StopCalls(t, stop, institution))
    {
      ghost var start, was := Now(), store.calls;
      ghost var step := (t, stop) => MakeStop(t, stop, institution);
      ghost var calls := (t, stop) => StopCalls(t, stop, institution);
      assert stops[0..] == stops;
      for i := 0 to |stops|
        invariant Remains(start, was, Now(), store.calls, stops, i, step, calls)
      {
        ghost var s, made := Now(), store.calls;
        ok := MakeOne(stops[i], institution);
        RemainsNext(start, was, s, made, stops, i, step, calls);
        if !ok { return; }
      }
      ok := true;
    }
  }

  /** What is left to do from `now` gives what the whole list gives from `start`. */
  ghost predicate Remains<T>(start: State, was: seq<Call>, now: State, made: seq<Call>, xs: seq<T>, i: nat,
                             step: (State, T) -> Outcome, calls: (State, T) -> seq<Call>)
    requires i <= |xs|
  {
    && UntilRaised(now, xs[i..], step) == UntilRaised(start, xs, step)
    && made + CallsUntilRaised(now, xs[i..], step, calls) == was + CallsUntilRaised(start, xs, step, calls)
  }

  lemma RemainsNext<T>(start: State, was: seq<Call>, now: State, made: seq<Call>, xs: seq<T>, i: nat,
                       step: (State, T) -> Outcome, calls: (State, T) -> seq<Call>)
    requires i < |xs| && Remains(start, was, now, made, xs, i, step, calls)
    ensures var r := step(now, xs[i]);
            if r.ok then Remains(start, was, r.state, made + calls(now, xs[i]), xs, i + 1, step, calls)
            else UntilRaised(start, xs, step) == r
                 && was + CallsUntilRaised(start, xs, step, calls) == made + calls(now, xs[i])
  {}
}
