/** Approvals, whole runs, and what holds over them. */
module StorageRuns {
  import opened Sets
  import opened Storage
  import opened StorageMoves
  import opened Text
  import opened Wrappers

  // ----- approving an item -----

  /** `move_into_permanent_storage` of an item: its staged bitstreams, one by one. */
  function ApproveAll(s: State, ids: seq<int>): Outcome {
    UntilRaised(s, ids, MoveIntoPermanentStorage)
  }

  ghost predicate Stored(s: State, id: int) {
    id in s.bitstreams && s.bitstreams[id].permanentKey.Some? && s.bitstreams[id].stagingKey.None?
  }

  /** One step of an approval, for an invariant `inv`. */
  ghost predicate ArchivesOne(s: State, id: int, r: Outcome, inv: State -> bool)
    requires id in s.bitstreams
  {
    && inv(r.state) && SameFiles(s, r.state)
    && (r.ok <==> s.bitstreams[id].stagingKey.Some? && id in s.content)
    && (r.ok ==> Stored(r.state, id))
    && (forall b :: b in s.bitstreams && b != id ==> r.state.bitstreams[b] == s.bitstreams[b])
  }

  ghost predicate ArchivesEach(step: (State, int) -> Outcome, inv: State -> bool) {
    forall s: State, id {:trigger ArchivesOne(s, id, step(s, id), inv)} ::
      inv(s) && id in s.bitstreams ==> ArchivesOne(s, id, step(s, id), inv)
  }

  lemma ApproveArchivesEach(inv: State -> bool)
    requires forall s :: inv(s) <==> Good(s)
    ensures ArchivesEach(MoveIntoPermanentStorage, inv)
  {
    forall s: State, id | inv(s) && id in s.bitstreams
      ensures ArchivesOne(s, id, MoveIntoPermanentStorage(s, id), inv)
    {
      MoveIntoPermanentKeepsGood(s, id);
      ApproveRows(s, id);
    }
  }

  lemma ApproveRows(s: State, id: int)
    requires id in s.bitstreams
    ensures var r := MoveIntoPermanentStorage(s, id);
            && SameFiles(s, r.state) && (r.ok ==> Stored(r.state, id))
            && (forall b :: b in s.bitstreams && b != id ==> r.state.bitstreams[b] == s.bitstreams[b])
  {}

  /**
    An approval goes through exactly when every staged file has been uploaded;
    either way the invariant holds and the files not listed are untouched.
   */
  lemma ApproveAllKeepsGood(s: State, ids: seq<int>)
    requires Good(s) && NoRepeats(ids)
    requires AllStaged(ids, s.bitstreams)
    ensures Good(ApproveAll(s, ids).state) && SameFiles(s, ApproveAll(s, ids).state)
    ensures ApproveAll(s, ids).ok <==> forall i :: 0 <= i < |ids| ==> ids[i] in s.content
    ensures ApproveAll(s, ids).ok ==> forall i :: 0 <= i < |ids| ==> Stored(ApproveAll(s, ids).state, ids[i])
    ensures forall b :: b in s.bitstreams && b !in ids ==>
              ApproveAll(s, ids).state.bitstreams[b] == s.bitstreams[b]
  {
    var inv: State -> bool := t => Good(t);
    ApproveArchivesEach(inv);
    ArchiveAll(s, ids, MoveIntoPermanentStorage, inv);
  }

  ghost predicate AllStaged(ids: seq<int>, bs: map<int, Bitstream>) {
    forall i :: 0 <= i < |ids| ==> ids[i] in bs && bs[ids[i]].stagingKey.Some?
  }

  lemma {:induction false} ArchiveAll(s: State, ids: seq<int>, step: (State, int) -> Outcome, inv: State -> bool)
    requires inv(s) && NoRepeats(ids) && ArchivesEach(step, inv) && AllStaged(ids, s.bitstreams)
    ensures inv(UntilRaised(s, ids, step).state) && SameFiles(s, UntilRaised(s, ids, step).state)
    ensures UntilRaised(s, ids, step).ok <==> forall i :: 0 <= i < |ids| ==> ids[i] in s.content
    ensures UntilRaised(s, ids, step).ok ==>
              forall i :: 0 <= i < |ids| ==> Stored(UntilRaised(s, ids, step).state, ids[i])
    ensures forall b :: b in s.bitstreams && b !in ids ==>
              UntilRaised(s, ids, step).state.bitstreams[b] == s.bitstreams[b]
    decreases ids
  {
    if ids != [] {
      var r := step(s, ids[0]);
      assert ArchivesOne(s, ids[0], r, inv);
      if r.ok {
        ArchiveAll(r.state, ids[1..], step, inv);
        assert forall i :: 0 < i < |ids| ==> ids[i] == ids[1..][i - 1];
      }
    }
  }

  // ----- runs -----

  datatype Op =
    | NewItem(item: nat, institution: string)
    | Create(id: int, item: nat, filename: string)
    | Import(id: int, item: nat, filename: string, data: Content, completes: bool)
    | Put(id: int, data: Content)
    | SetFilename(id: int, name: Option<string>, completes: bool)
    | Approve(id: int)
    | Delete(id: int, completes: bool)
    | MoveTo(items: set<nat>, stops: seq<Stop>, institution: string)

  const NOTHING := State(map[], map[], map[], map[])

  function Step(s: State, op: Op): State {
    match op
    case NewItem(item, institution) =>
      if item in s.institutionOf || '/' in institution then s
      else s.(institutionOf := s.institutionOf[item := institution])
    case Create(id, item, filename) => CreateInStaging(s, id, item, filename).state
    case Import(id, item, filename, data, completes) => ImportFile(s, id, item, filename, data, completes).state
    case Put(id, data) => Upload(s, id, data).state
    case SetFilename(id, filename, completes) => Rename(s, id, filename, completes).state
    case Approve(id) => MoveIntoPermanentStorage(s, id).state
    case Delete(id, completes) => Destroy(s, id, completes).state
    case MoveTo(items, stops, institution) => Relocate(s, items, stops, institution).state
  }

  /** What the code itself sees to: an institution's key has no slash, and a move takes all bitstreams of its items. */
  ghost predicate WellFormed(s: State, op: Op) {
    op.MoveTo? ==> '/' !in op.institution && op.items <= s.institutionOf.Keys && Covers(s, op.items, op.stops)
  }

  /**
    What a caller can check: a file with a blank name is not renamed, no file
    takes back a name that another one has, and what puts, moves or deletes an
    object completes, or fails before it has touched any.
   */
  ghost predicate Careful(s: State, op: Op) {
    match op
    case Import(id, item, filename, _, completes) => completes || !Importable(s, id, item, filename)
    case SetFilename(id, filename, completes) => id in s.bitstreams ==> RenameIsSafe(s, id, filename, completes)
    case Delete(id, completes) => completes || id !in s.content
    case MoveTo(items, stops, institution) =>
      AllPass(s, HomeOf(s), stops, institution) || RaisesBeforeMoving(s.content, HomeOf(s), stops, institution)
    case _ => true
  }

  /** A step keeps the invariant exactly when it is careful. */
  lemma StepKeepsGoodIff(s: State, op: Op)
    requires Good(s) && WellFormed(s, op)
    ensures Good(Step(s, op)) <==> Careful(s, op)
  {
    match op
    case NewItem(item, institution) => NewItemKeepsGood(s, item, institution);
    case Create(id, item, filename) => CreateKeepsGood(s, id, item, filename);
    case Import(id, item, filename, data, completes) => ImportKeepsGoodIff(s, id, item, filename, data, completes);
    case Put(id, data) => if id in s.bitstreams { UploadKeepsGood(s, id, data); }
    case SetFilename(id, filename, completes) =>
      if id in s.bitstreams { RenameKeepsGoodIff(s, id, filename, completes); }
    case Approve(id) => if id in s.bitstreams { MoveIntoPermanentKeepsGood(s, id); }
    case Delete(id, completes) =>
      if id in s.bitstreams { DestroyKeepsGoodIff(s, id, completes); } else { NoContentYet(s, id); }
    case MoveTo(items, stops, institution) => RelocateKeepsGoodIff(s, items, stops, institution);
  }

  lemma NoContentYet(s: State, id: int)
    requires Good(s) && id !in s.bitstreams
    ensures id !in s.content
  {}

  lemma NewItemKeepsGood(s: State, item: nat, institution: string)
    requires Good(s)
    ensures Good(Step(s, NewItem(item, institution)))
  {
    var s' := Step(s, NewItem(item, institution));
    forall b | b in s.bitstreams ensures s.bitstreams[b].item in s.institutionOf {
      GoodRow(s, b);
    }
    assert HomeOf(s') == HomeOf(s);
  }

  ghost function Run(s: State, ops: seq<Op>): State
    decreases ops
  {
    if ops == [] then s else Run(Step(s, ops[0]), ops[1..])
  }

  ghost predicate AllWellFormed(s: State, ops: seq<Op>)
    decreases ops
  {
    ops == [] || (WellFormed(s, ops[0]) && AllWellFormed(Step(s, ops[0]), ops[1..]))
  }

  ghost predicate AllCareful(s: State, ops: seq<Op>)
    decreases ops
  {
    ops == [] || (Careful(s, ops[0]) && AllCareful(Step(s, ops[0]), ops[1..]))
  }

  /** The invariant holds in every state that the run passes through. */
  ghost predicate GoodThroughout(s: State, ops: seq<Op>)
    decreases ops
  {
    Good(s) && (ops == [] || GoodThroughout(Step(s, ops[0]), ops[1..]))
  }

  /**
    One computed key per bitstream, no two alike, and every content at its key:
    a run keeps this all along exactly when each of its steps is careful.
   */
  lemma {:induction false} RunKeepsGoodIff(s: State, ops: seq<Op>)
    requires Good(s) && AllWellFormed(s, ops)
    ensures GoodThroughout(s, ops) <==> AllCareful(s, ops)
    decreases ops
  {
    if ops != [] {
      StepKeepsGoodIff(s, ops[0]);
      if Careful(s, ops[0]) { RunKeepsGoodIff(Step(s, ops[0]), ops[1..]); }
    }
  }

  lemma {:induction false} GoodAtEnd(s: State, ops: seq<Op>)
    requires GoodThroughout(s, ops)
    ensures Good(Run(s, ops))
    decreases ops
  {
    if ops != [] { GoodAtEnd(Step(s, ops[0]), ops[1..]); }
  }

  /** What one step makes of the content of `id`. */
  ghost function Putting(was: Option<Content>, s: State, op: Op, id: int): Option<Content> {
    if op.Put? && op.id == id && id in s.bitstreams then Some(op.data)
    else if op.Import? && op.id == id && op.completes && Importable(s, id, op.item, op.filename) then Some(op.data)
    else if op.Delete? && op.id == id && id in s.bitstreams && op.completes then None
    else was
  }

  /** What was last put or imported for `id` in a history, if it was not deleted since. */
  ghost function LastPut(was: Option<Content>, s: State, ops: seq<Op>, id: int): Option<Content>
    decreases ops
  {
    if ops == [] then was else LastPut(Putting(was, s, ops[0], id), Step(s, ops[0]), ops[1..], id)
  }

  ghost function ContentOf(s: State, id: int): Option<Content> {
    if id in s.content then Some(s.content[id]) else None
  }

  lemma StepContent(s: State, op: Op, id: int)
    requires Good(s) && WellFormed(s, op)
    ensures ContentOf(Step(s, op), id) == Putting(ContentOf(s, id), s, op, id)
  {
    match op
    case NewItem(_, _) =>
    case Create(_, _, _) =>
    case Import(_, _, _, _, _) =>
    case Put(b, data) => PutContent(s, b, data);
    case SetFilename(b, filename, completes) => RenameContent(s, b, filename, completes);
    case Approve(b) => ArchiveContent(s, b);
    case Delete(_, _) =>
    case MoveTo(items, stops, institution) => RelocateKeepsGoodIff(s, items, stops, institution);
  }

  lemma PutContent(s: State, id: int, data: Content)
    requires Good(s)
    ensures Upload(s, id, data).state.content == if id in s.bitstreams then s.content[id := data] else s.content
  {
    if id in s.bitstreams { UploadKeepsGood(s, id, data); }
  }

  lemma RenameContent(s: State, id: int, filename: Option<string>, completes: bool)
    ensures Rename(s, id, filename, completes).state.content == s.content
  {}

  lemma ArchiveContent(s: State, id: int)
    ensures MoveIntoPermanentStorage(s, id).state.content == s.content
  {}

  lemma {:induction false} ContentIsLastPut(s: State, ops: seq<Op>, id: int)
    requires GoodThroughout(s, ops) && AllWellFormed(s, ops)
    ensures ContentOf(Run(s, ops), id) == LastPut(ContentOf(s, id), s, ops, id)
    decreases ops
  {
    if ops != [] {
      StepContent(s, ops[0], id);
      ContentIsLastPut(Step(s, ops[0]), ops[1..], id);
    }
  }

  /** Reading a bitstream at the end of any careful run gives back what was last uploaded to it. */
  lemma NothingLost(s: State, ops: seq<Op>, id: int)
    requires Good(s) && AllWellFormed(s, ops) && AllCareful(s, ops)
    ensures var s', put := Run(s, ops), LastPut(ContentOf(s, id), s, ops, id);
            put.Some? ==> id in s'.bitstreams && EffectiveKey(s'.bitstreams[id]).Some?
                          && EffectiveKey(s'.bitstreams[id]).value in s'.store
                          && s'.store[EffectiveKey(s'.bitstreams[id]).value] == put.value
  {
    RunKeepsGoodIff(s, ops);
    GoodAtEnd(s, ops);
    ContentIsLastPut(s, ops, id);
    var s' := Run(s, ops);
    if id in s'.content {
      GoodRow(s', id);
      KeyedPresent(HomeOf(s')[id], s'.bitstreams[id]);
    }
  }

  // ----- the calls of move_object -----

  /** The calls that one step makes, up to the first statement that raises. */
  function StepCalls(s: State, op: Op): seq<Call> {
    match op
    case SetFilename(id, filename, _) => RenameCalls(s, id, filename)
    case Approve(id) => ApprovalCalls(s, id)
    case MoveTo(items, stops, institution) => RelocationCalls(s, items, stops, institution)
    case _ => []
  }

  /** The one call that a caller has to look out for: a name taken back whose key another file's object is at. */
  ghost predicate TakesKeyBack(s: State, id: int, filename: Option<string>) {
    && id in s.bitstreams && filename.None? && s.bitstreams[id].original != s.bitstreams[id].filename
    && !Blank(s.bitstreams[id].filename) && OverwritesAnother(s, id)
  }

  /** A rename calls for an occupied key exactly when it takes it back. */
  lemma RenameCallsSafeIff(s: State, id: int, filename: Option<string>)
    requires Good(s)
    ensures (forall c :: c in RenameCalls(s, id, filename) ==> Safe(c)) <==> !TakesKeyBack(s, id, filename)
    ensures id !in s.content ==> forall c :: c in RenameCalls(s, id, filename) ==> c.source !in s.store
  {
    if RenameCalls(s, id, filename) == [] {
      if id in s.bitstreams { GoodRow(s, id); KeyedPresent(HomeOf(s)[id], s.bitstreams[id]); }
    } else {
      var b, i := s.bitstreams[id], HomeOf(s)[id];
      var row := RowIn(i, b.(filename := NewName(b, filename)));
      GoodRow(s, id);
      RenameIsMove(s, id, filename, i, row);
      KeyedPresent(i, b);
      KeyedPresent(i, row);
      RenameCallSafeIff(s, id, filename, row);
      assert RenameCalls(s, id, filename) == [Call(KeyOf(b), KeyOf(row), s.store)];
      assert Call(KeyOf(b), KeyOf(row), s.store) in RenameCalls(s, id, filename);
      LocatedInjective(HomeOf(s), s.bitstreams);
      assert KeysOf(s.bitstreams)[id] == KeyOf(b);
    }
  }

  lemma RenameCallSafeIff(s: State, id: int, filename: Option<string>, row: Bitstream)
    requires Good(s) && id in s.bitstreams && !NameRefused(s, id, filename) && Keyed(HomeOf(s)[id], row)
    requires NewName(s.bitstreams[id], filename) == row.filename != s.bitstreams[id].filename
    requires !Blank(s.bitstreams[id].filename) && row.item == s.bitstreams[id].item
    requires KeyOf(row) != KeyOf(s.bitstreams[id])
    requires row.stagingKey.Some? <==> s.bitstreams[id].stagingKey.Some?
    ensures KeyOf(row) in s.store <==> TakesKeyBack(s, id, filename)
  {
    GoodRow(s, id);
    if filename.Some? {
      SaveKeepsGood(s, HomeOf(s), id, row, HomeOf(s)[id]);
    } else {
      TakenNameKeys(s, id, row);
    }
  }

  lemma ApprovalCallsSafe(s: State, id: int)
    requires Good(s)
    ensures forall c :: c in ApprovalCalls(s, id) ==> Safe(c)
  {
    if ApprovalCalls(s, id) != [] {
      var b, i := s.bitstreams[id], HomeOf(s)[id];
      GoodRow(s, id);
      KeyedPresent(i, b);
      AreasDiffer(i, b.item, b.filename);
      OwnNameFree(s, HomeOf(s), id);
      SaveKeepsGood(s, HomeOf(s), id, Archived(i, b), i);
    }
  }

  /** Whether a step calls for moving an object to a key that is occupied. */
  ghost predicate CallsForOccupied(s: State, op: Op) {
    op.SetFilename? && TakesKeyBack(s, op.id, op.name)
  }

  /**
    No call of a step moves an object onto itself, and none over another one
    except when a name is taken back. A careful step makes that call, if at all,
    for an object that is not there, which raises.
   */
  lemma StepCallsSafe(s: State, op: Op)
    requires Good(s) && WellFormed(s, op)
    ensures (forall c :: c in StepCalls(s, op) ==> Safe(c)) <==> !CallsForOccupied(s, op)
    ensures Careful(s, op) ==> forall c :: c in StepCalls(s, op) ==> Harmless(c)
  {
    match op
    case SetFilename(id, filename, completes) =>
      RenameCallsSafeIff(s, id, filename);
      if Careful(s, op) && CallsForOccupied(s, op) { OccupiedHarmless(s, id, filename, completes); }
    case Approve(id) => ApprovalCallsSafe(s, id);
    case MoveTo(items, stops, institution) => RelocationCallsSafe(s, items, stops, institution);
    case _ =>
  }

  /** Safe, or without an effect. */
  predicate Harmless(c: Call) {
    Safe(c) || c.source !in c.store
  }

  lemma OccupiedHarmless(s: State, id: int, filename: Option<string>, completes: bool)
    requires Good(s) && TakesKeyBack(s, id, filename) && Careful(s, SetFilename(id, filename, completes))
    ensures forall c :: c in RenameCalls(s, id, filename) ==> Harmless(c)
  {
    var c :| c in s.bitstreams && c in s.content && c != id && Overwritten(s.bitstreams[id], s.bitstreams[c]);
    assert NameTaken(s, id, s.bitstreams[id].item, s.bitstreams[id].original);
    RenameCallsSafeIff(s, id, filename);
  }

  function RunCalls(s: State, ops: seq<Op>): seq<Call>
    decreases ops
  {
    if ops == [] then [] else StepCalls(s, ops[0]) + RunCalls(Step(s, ops[0]), ops[1..])
  }

  ghost predicate NoneForOccupied(s: State, ops: seq<Op>)
    decreases ops
  {
    ops == [] || (!CallsForOccupied(s, ops[0]) && NoneForOccupied(Step(s, ops[0]), ops[1..]))
  }

  /**
    The same for a run as long as its steps are careful, and for the first step
    that is not: all calls are safe exactly when no name is taken back from under
    an object, and without a careless step they are all harmless.
   */
  lemma {:induction false} RunCallsSafe(s: State, ops: seq<Op>)
    requires Good(s) && AllWellFormed(s, ops) && (ops == [] || AllCareful(s, ops[..|ops| - 1]))
    ensures (forall c :: c in RunCalls(s, ops) ==> Safe(c)) <==> NoneForOccupied(s, ops)
    ensures AllCareful(s, ops) ==> forall c :: c in RunCalls(s, ops) ==> Harmless(c)
    decreases ops
  {
    if ops != [] {
      StepCallsSafe(s, ops[0]);
      if |ops| > 1 {
        assert ops[..|ops| - 1][0] == ops[0] && ops[..|ops| - 1][1..] == ops[1..][..|ops[1..]| - 1];
        StepKeepsGoodIff(s, ops[0]);
        RunCallsSafe(Step(s, ops[0]), ops[1..]);
      }
      RunCallsCons(s, ops);
    }
  }

  lemma RunCallsCons(s: State, ops: seq<Op>)
    requires ops != []
    ensures forall c :: c in RunCalls(s, ops) <==> c in StepCalls(s, ops[0]) || c in RunCalls(Step(s, ops[0]), ops[1..])
  {}
}
