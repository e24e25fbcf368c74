/**
  Bitstreams and the objects behind them, as values: what each operation does to
  the rows and to the object store, and the invariant that every run keeps.
 */
module Storage {
  import opened StorageKeys
  import opened Text
  import opened Wrappers

  type Content = seq<bv8>
  type Objects = map<string, Content>

  /** `original` is the name that the file was created with. */
  datatype Bitstream = Bitstream(item: nat, filename: string, original: string, stagingKey: Option<string>,
                                 permanentKey: Option<string>)

  /** `content` remembers what was last uploaded for each bitstream; no operation reads it. */
  datatype State = State(institutionOf: map<nat, string>, bitstreams: map<int, Bitstream>,
                         store: Objects, content: map<int, Content>)

  /** The state after an operation, and whether it went through rather than raised. */
  datatype Outcome = Outcome(state: State, ok: bool)

  // ----- the object store -----

  /** Copy, then delete the source; a missing source raises. */
  function MoveObject(store: Objects, source: string, target: string): Option<Objects> {
    if source in store then Some(store[target := store[source]] - {source}) else None
  }

  // ----- the operations -----

  predicate NameTaken(s: State, id: int, item: nat, filename: string) {
    exists b :: b in s.bitstreams && b != id && s.bitstreams[b].item == item && s.bitstreams[b].filename == filename
  }

  /** What the unique index on staging keys refuses. */
  predicate StagingKeyTaken(s: State, id: int, key: Option<string>) {
    key.Some? && exists b :: b in s.bitstreams && b != id && s.bitstreams[b].stagingKey == key
  }

  /** `new_in_staging` and the first save: no object exists yet. */
  function CreateInStaging(s: State, id: int, item: nat, filename: string): Outcome {
    if id in s.bitstreams || item !in s.institutionOf || NameTaken(s, id, item, filename) then Outcome(s, false) else
    var key := StagingKey(s.institutionOf[item], item, filename);
    if StagingKeyTaken(s, id, Some(key)) then Outcome(s, false) else
    Outcome(s.(bitstreams := s.bitstreams[id := Bitstream(item, filename, filename, Some(key), None)]), true)
  }

  /** An import passes over a name that the item has; otherwise it puts the object straight into permanent storage. */
  predicate Importable(s: State, id: int, item: nat, filename: string) {
    id !in s.bitstreams && item in s.institutionOf && !NameTaken(s, id, item, filename)
  }

  /** Adds a row and then its object; the rest of the import may still fail and take the row back. */
  function ImportFile(s: State, id: int, item: nat, filename: string, data: Content, completes: bool): Outcome {
    Committed(s, ImportRow(s, id, item, filename, data), completes)
  }

  function ImportRow(s: State, id: int, item: nat, filename: string, data: Content): Outcome {
    if !Importable(s, id, item, filename) then Outcome(s, id !in s.bitstreams && item in s.institutionOf) else
    Outcome(WithFile(s, id, item, filename, data), true)
  }

  function WithFile(s: State, id: int, item: nat, filename: string, data: Content): State
    requires item in s.institutionOf
  {
    var key := PermanentKey(s.institutionOf[item], item, filename);
    State(s.institutionOf, s.bitstreams[id := Bitstream(item, filename, filename, None, Some(key))],
          s.store[key := data], s.content[id := data])
  }

  function EffectiveKey(b: Bitstream): Option<string> {
    if Present(b.permanentKey) then b.permanentKey else if Present(b.stagingKey) then b.stagingKey else None
  }

  function Upload(s: State, id: int, data: Content): Outcome {
    if id !in s.bitstreams || EffectiveKey(s.bitstreams[id]).None? then Outcome(s, false) else
    var key := EffectiveKey(s.bitstreams[id]).value;
    Outcome(s.(store := s.store[key := data], content := s.content[id := data]), true)
  }

  /**
    Moves an object, whatever the two keys are, and saves a row. A missing object
    raises; so does a staging key in use, when the object has been moved already.
   */
  function SaveMoved(s: State, id: int, row: Bitstream, source: string, target: string): Outcome
    requires id in s.bitstreams
  {
    var store := MoveObject(s.store, source, target);
    if store.None? then Outcome(s, false)
    else if StagingKeyTaken(s, id, row.stagingKey) then Outcome(s.(store := store.value), false)
    else Outcome(s.(bitstreams := s.bitstreams[id := row], store := store.value), true)
  }

  /** Saves a row whose key may have changed; the object is moved along only if it has. */
  function SaveRow(s: State, id: int, row: Bitstream): Outcome
    requires id in s.bitstreams
  {
    var source, target := EffectiveKey(s.bitstreams[id]), EffectiveKey(row);
    if source == target || source.None? || target.None? then
      Outcome(s.(bitstreams := s.bitstreams[id := row]), true)
    else SaveMoved(s, id, row, source.value, target.value)
  }

  /** The key computed for an institution, in the area where the bitstream is now. */
  function KeyFor(institution: string, b: Bitstream): string {
    if Present(b.permanentKey) then PermanentKey(institution, b.item, b.filename)
    else StagingKey(institution, b.item, b.filename)
  }

  /** The row with that key. */
  function RowIn(institution: string, b: Bitstream): Bitstream {
    if Present(b.permanentKey) then b.(permanentKey := Some(KeyFor(institution, b)))
    else if Present(b.stagingKey) then b.(stagingKey := Some(KeyFor(institution, b)))
    else b
  }

  /** A transaction that fails takes the rows back; the objects stay where they are. */
  function RolledBack(s: State, t: State): State {
    s.(store := t.store)
  }

  /** What a save comes to once the rest of its transaction, outside this model, has gone through or raised. */
  function Committed(s: State, r: Outcome, completes: bool): Outcome {
    if r.ok && !completes then Outcome(RolledBack(s, r.state), false) else r
  }

  /** A file that is left without a name takes the one that it was created with. */
  function NewName(b: Bitstream, filename: Option<string>): string {
    if filename.Some? then filename.value else b.original
  }

  /** Only a name that is given is compared with the names of the item's other files. */
  predicate NameRefused(s: State, id: int, filename: Option<string>)
    requires id in s.bitstreams
  {
    filename.Some? && NameTaken(s, id, s.bitstreams[id].item, filename.value)
  }

  /** Saves a new filename; a Medusa message or the database may still refuse the save once the object has moved. */
  function Rename(s: State, id: int, filename: Option<string>, completes: bool): Outcome {
    Committed(s, RenameRow(s, id, filename), completes)
  }

  /** The stored object, if there is a key, follows unless the old filename was blank. */
  function RenameRow(s: State, id: int, filename: Option<string>): Outcome {
    if id !in s.bitstreams then Outcome(s, false) else
    var b := s.bitstreams[id];
    var name := NewName(b, filename);
    if name == b.filename then Outcome(s, true)
    else if NameRefused(s, id, filename) || b.item !in s.institutionOf then Outcome(s, false)
    else
      var renamed := b.(filename := name);
      if Blank(b.filename) || EffectiveKey(b).None? then
        Outcome(s.(bitstreams := s.bitstreams[id := renamed]), true)
      else
        var institution := s.institutionOf[b.item];
        SaveMoved(s, id, RowIn(institution, renamed), EffectiveKey(b).value, KeyFor(institution, renamed))
  }

  /** The row once approved: a permanent key, no staging key. */
  function Archived(institution: string, b: Bitstream): Bitstream {
    b.(permanentKey := Some(PermanentKey(institution, b.item, b.filename)), stagingKey := None)
  }

  function MoveIntoPermanentStorage(s: State, id: int): Outcome {
    if id !in s.bitstreams || !Present(s.bitstreams[id].stagingKey) || s.bitstreams[id].item !in s.institutionOf
    then Outcome(s, false)
    else
      var b := s.bitstreams[id];
      var institution := s.institutionOf[b.item];
      SaveMoved(s, id, Archived(institution, b), b.stagingKey.value, PermanentKey(institution, b.item, b.filename))
  }

  /** Deletes the stored object and then the row, which may still be refused. */
  function Destroy(s: State, id: int, completes: bool): Outcome {
    Committed(s, DestroyRow(s, id), completes)
  }

  function DestroyRow(s: State, id: int): Outcome {
    if id !in s.bitstreams then Outcome(s, false) else
    var b := s.bitstreams[id];
    var staged := if Present(b.stagingKey) then s.store - {b.stagingKey.value} else s.store;
    var gone := if Present(b.permanentKey) then staged - {b.permanentKey.value} else staged;
    Outcome(State(s.institutionOf, s.bitstreams - {id}, gone, s.content - {id}), true)
  }

  /** Gives one bitstream the key it has in another institution. */
  function Rehome(s: State, id: int, institution: string): Outcome {
    if id !in s.bitstreams then Outcome(s, true) else SaveRow(s, id, RowIn(institution, s.bitstreams[id]))
  }

  /** One step per element, in order, up to the first that raises. */
  function UntilRaised<T>(s: State, xs: seq<T>, step: (State, T) -> Outcome): Outcome
    decreases xs
  {
    if xs == [] then Outcome(s, true) else
    var r := step(s, xs[0]);
    if !r.ok then r else UntilRaised(r.state, xs[1..], step)
  }

  /**
    The statements of a move that can raise: one that touches no stored object,
    with whether it goes through, and the new key of a bitstream.
   */
  datatype Stop = Check(passes: bool) | Rekey(id: int)

  function MakeStop(s: State, stop: Stop, institution: string): Outcome {
    match stop
    case Check(passes) => Outcome(s, passes)
    case Rekey(id) => Rehome(s, id, institution)
  }

  function MakeStops(s: State, stops: seq<Stop>, institution: string): Outcome {
    UntilRaised(s, stops, (t, stop) => MakeStop(t, stop, institution))
  }

  function Reassigned(institutionOf: map<nat, string>, items: set<nat>, institution: string): map<nat, string> {
    map i | i in institutionOf :: if i in items then institution else institutionOf[i]
  }

  /**
    Moves items to another institution, statement by statement. A failure rolls
    the rows back, but not the objects moved so far.
   */
  function Relocate(s: State, items: set<nat>, stops: seq<Stop>, institution: string): Outcome {
    var r := MakeStops(s.(institutionOf := Reassigned(s.institutionOf, items, institution)), stops, institution);
    if r.ok then r else Outcome(RolledBack(s, r.state), false)
  }

  // ----- the calls of move_object -----

  /** A call, and the objects in the store when it is made. */
  datatype Call = Call(source: string, target: string, store: Objects)

  /** Not onto itself, and not onto another object. */
  predicate Safe(c: Call) {
    c.source != c.target && c.target !in c.store
  }

  function RenameCalls(s: State, id: int, filename: Option<string>): seq<Call> {
    if id !in s.bitstreams then [] else
    var b := s.bitstreams[id];
    var name := NewName(b, filename);
    if name == b.filename || NameRefused(s, id, filename) || b.item !in s.institutionOf then [] else
    if Blank(b.filename) || EffectiveKey(b).None? then [] else
    [Call(EffectiveKey(b).value, KeyFor(s.institutionOf[b.item], b.(filename := name)), s.store)]
  }

  function ApprovalCalls(s: State, id: int): seq<Call> {
    if id !in s.bitstreams || !Present(s.bitstreams[id].stagingKey) || s.bitstreams[id].item !in s.institutionOf
    then []
    else
      var b := s.bitstreams[id];
      [Call(b.stagingKey.value, PermanentKey(s.institutionOf[b.item], b.item, b.filename), s.store)]
  }

  function RehomeCalls(s: State, id: int, institution: string): seq<Call> {
    if id !in s.bitstreams then [] else
    var source, target := EffectiveKey(s.bitstreams[id]), EffectiveKey(RowIn(institution, s.bitstreams[id]));
    if source == target || source.None? || target.None? then [] else [Call(source.value, target.value, s.store)]
  }

  function StopCalls(s: State, stop: Stop, institution: string): seq<Call> {
    if stop.Rekey? then RehomeCalls(s, stop.id, institution) else []
  }

  /** The calls of all steps up to the first that raises, its own included. */
  function CallsUntilRaised<T>(s: State, xs: seq<T>, step: (State, T) -> Outcome,
                               calls: (State, T) -> seq<Call>): seq<Call>
    decreases xs
  {
    if xs == [] then [] else
    var r := step(s, xs[0]);
    calls(s, xs[0]) + if r.ok then CallsUntilRaised(r.state, xs[1..], step, calls) else []
  }

  function RelocationCalls(s: State, items: set<nat>, stops: seq<Stop>, institution: string): seq<Call> {
    CallsUntilRaised(s.(institutionOf := Reassigned(s.institutionOf, items, institution)), stops,
                     (t, stop) => MakeStop(t, stop, institution), (t, stop) => StopCalls(t, stop, institution))
  }

  // ----- the invariant -----

  ghost predicate Keyed(institution: string, b: Bitstream) {
    || (b.permanentKey == Some(PermanentKey(institution, b.item, b.filename)) && b.stagingKey.None?)
    || (b.permanentKey.None? && b.stagingKey == Some(StagingKey(institution, b.item, b.filename)))
  }

  ghost predicate NamesDiffer(a: Bitstream, b: Bitstream) {
    a.item == b.item ==> a.filename != b.filename
  }

  ghost predicate UniqueNames(bs: map<int, Bitstream>) {
    forall a, b {:trigger NamesDiffer(bs[a], bs[b])} ::
      a in bs && b in bs && a != b ==> NamesDiffer(bs[a], bs[b])
  }

  ghost predicate KeyedAt(institution: string, b: Bitstream) {
    '/' !in institution && Keyed(institution, b)
  }

  /** Each row has exactly one key, the one computed from its institution, item and filename. */
  ghost predicate Located(home: map<int, string>, bs: map<int, Bitstream>) {
    && UniqueNames(bs)
    && home.Keys == bs.Keys
    && forall b {:trigger KeyedAt(home[b], bs[b])} :: b in bs ==> KeyedAt(home[b], bs[b])
  }

  ghost function KeyOf(b: Bitstream): string {
    if b.permanentKey.Some? then b.permanentKey.value else if b.stagingKey.Some? then b.stagingKey.value else ""
  }

  ghost function KeysOf(bs: map<int, Bitstream>): map<int, string> {
    map b | b in bs :: KeyOf(bs[b])
  }

  ghost predicate Injective(keys: map<int, string>) {
    forall a, b :: a in keys && b in keys && a != b ==> keys[a] != keys[b]
  }

  /** The store holds exactly the uploaded contents, each at its bitstream's key. */
  ghost predicate Matches(keys: map<int, string>, store: Objects, content: map<int, Content>) {
    && content.Keys <= keys.Keys
    && (forall b :: b in content ==> keys[b] in store && store[keys[b]] == content[b])
    && (forall k :: k in store ==> exists b :: b in content && keys[b] == k)
  }

  ghost function HomeOf(s: State): map<int, string> {
    map b | b in s.bitstreams ::
      if s.bitstreams[b].item in s.institutionOf then s.institutionOf[s.bitstreams[b].item] else "/"
  }

  ghost predicate GoodUnder(s: State, home: map<int, string>) {
    Located(home, s.bitstreams) && Matches(KeysOf(s.bitstreams), s.store, s.content)
  }

  ghost predicate Good(s: State) {
    GoodUnder(s, HomeOf(s)) && forall i :: i in s.institutionOf ==> '/' !in s.institutionOf[i]
  }

  lemma RowKeyed(home: map<int, string>, bs: map<int, Bitstream>, b: int)
    requires Located(home, bs) && b in bs
    ensures '/' !in home[b] && Keyed(home[b], bs[b])
  {
    assert KeyedAt(home[b], bs[b]);
  }

  lemma GoodRow(s: State, b: int)
    requires Good(s) && b in s.bitstreams
    ensures s.bitstreams[b].item in s.institutionOf && HomeOf(s)[b] == s.institutionOf[s.bitstreams[b].item]
    ensures '/' !in HomeOf(s)[b] && Keyed(HomeOf(s)[b], s.bitstreams[b])
  {
    RowKeyed(HomeOf(s), s.bitstreams, b);
  }

  lemma OwnNameFree(s: State, home: map<int, string>, id: int)
    requires Located(home, s.bitstreams) && id in s.bitstreams
    ensures !NameTaken(s, id, s.bitstreams[id].item, s.bitstreams[id].filename)
  {
    forall b | b in s.bitstreams && b != id ensures NamesDiffer(s.bitstreams[b], s.bitstreams[id]) {}
  }

  lemma KeysDiffer(i1: string, b1: Bitstream, i2: string, b2: Bitstream)
    requires '/' !in i1 && '/' !in i2 && Keyed(i1, b1) && Keyed(i2, b2)
    requires b1.item == b2.item ==> b1.filename != b2.filename
    ensures KeyOf(b1) != KeyOf(b2)
  {
    if KeyOf(b1) == KeyOf(b2) {
      KeyInjective(if b1.permanentKey.Some? then "storage" else "uploads", i1, b1.item, b1.filename,
                   if b2.permanentKey.Some? then "storage" else "uploads", i2, b2.item, b2.filename);
    }
  }

  /** No two bitstreams share a key. */
  lemma LocatedInjective(home: map<int, string>, bs: map<int, Bitstream>)
    requires Located(home, bs)
    ensures Injective(KeysOf(bs))
  {
    forall a, b | a in bs && b in bs && a != b ensures KeyOf(bs[a]) != KeyOf(bs[b]) {
      RowKeyed(home, bs, a);
      RowKeyed(home, bs, b);
      assert NamesDiffer(bs[a], bs[b]);
      KeysDiffer(home[a], bs[a], home[b], bs[b]);
    }
  }

  lemma KeyPresent(area: string, institution: string, item: nat, filename: string)
    ensures !Blank(KeyIn(area, institution, item, filename))
  {
    var k := KeyIn(area, institution, item, filename);
    assert k[0] == 'i';
  }

  lemma KeyedPresent(institution: string, b: Bitstream)
    requires Keyed(institution, b)
    ensures EffectiveKey(b) == Some(KeyOf(b))
    ensures Present(b.permanentKey) == b.permanentKey.Some? && Present(b.stagingKey) == b.stagingKey.Some?
    ensures b.stagingKey.Some? ==> KeyOf(b) == b.stagingKey.value
  {
    KeyPresent("storage", institution, b.item, b.filename);
    KeyPresent("uploads", institution, b.item, b.filename);
  }

  /** Moving one object to a key nobody has keeps every content where its key says. */
  lemma MoveKeepsMatch(keys: map<int, string>, store: Objects, content: map<int, Content>, id: int, target: string)
    requires Matches(keys, store, content) && Injective(keys) && id in keys
    requires forall b :: b in keys ==> keys[b] != target
    ensures target != keys[id] && target !in store
    ensures MoveObject(store, keys[id], target).Some? <==> id in content
    ensures id in content ==>
              Matches(keys[id := target], MoveObject(store, keys[id], target).value, content)
  {}

  lemma LocatedUpdate(home: map<int, string>, bs: map<int, Bitstream>, id: int, row: Bitstream, institution: string)
    requires Located(home, bs) && '/' !in institution && Keyed(institution, row)
    requires forall b :: b in bs && b != id && bs[b].item == row.item ==> bs[b].filename != row.filename
    ensures Located(home[id := institution], bs[id := row])
  {}

  lemma KeyUnused(home: map<int, string>, bs: map<int, Bitstream>, id: int, row: Bitstream, institution: string)
    requires Located(home, bs) && '/' !in institution && Keyed(institution, row)
    requires forall b :: b in bs && b != id && bs[b].item == row.item ==> bs[b].filename != row.filename
    ensures forall b :: b in bs && b != id ==> KeyOf(bs[b]) != KeyOf(row)
  {
    forall b | b in bs && b != id ensures KeyOf(bs[b]) != KeyOf(row) {
      RowKeyed(home, bs, b);
      KeysDiffer(home[b], bs[b], institution, row);
    }
  }

  /** The computed key of a row is no other row's staging key. */
  lemma StagingKeyFree(home: map<int, string>, bs: map<int, Bitstream>, id: int, row: Bitstream, institution: string)
    requires Located(home, bs) && '/' !in institution && Keyed(institution, row)
    requires forall b :: b in bs && b != id && bs[b].item == row.item ==> bs[b].filename != row.filename
    ensures row.stagingKey.Some? ==> forall b :: b in bs && b != id ==> bs[b].stagingKey != row.stagingKey
  {
    KeyUnused(home, bs, id, row, institution);
    KeyedPresent(institution, row);
    forall b | b in bs && b != id && row.stagingKey.Some? ensures bs[b].stagingKey != row.stagingKey {
      RowKeyed(home, bs, b);
      KeyedPresent(home[b], bs[b]);
    }
  }

  /** `r` is a save that took the object of `id` along to a new key, or found none and changed nothing. */
  ghost predicate Saved(s: State, home: map<int, string>, id: int, row: Bitstream, institution: string, r: Outcome)
    requires id in s.bitstreams
  {
    && (r.ok <==> id in s.content)
    && (!r.ok ==> r.state == s)
    && (r.ok ==>
          && GoodUnder(r.state, home[id := institution])
          && r.state.bitstreams == s.bitstreams[id := row]
          && r.state.institutionOf == s.institutionOf
          && r.state.content == s.content
          && KeyOf(s.bitstreams[id]) !in r.state.store)
    && (forall k :: k in r.state.store ==> k in s.store || k == KeyOf(row))
  }

  /**
    A row saved with the right key for its home: if the key changes, it was free,
    and the object is there exactly when something was uploaded.
   */
  lemma SaveKeepsGood(s: State, home: map<int, string>, id: int, row: Bitstream, institution: string)
    requires GoodUnder(s, home) && id in s.bitstreams && '/' !in institution && Keyed(institution, row)
    requires KeyOf(row) != KeyOf(s.bitstreams[id])
    requires row.item == s.bitstreams[id].item && !NameTaken(s, id, row.item, row.filename)
    ensures KeyOf(row) !in s.store && !StagingKeyTaken(s, id, row.stagingKey)
    ensures Saved(s, home, id, row, institution, SaveRow(s, id, row))
  {
    var keys := KeysOf(s.bitstreams);
    LocatedInjective(home, s.bitstreams);
    KeyUnused(home, s.bitstreams, id, row, institution);
    LocatedUpdate(home, s.bitstreams, id, row, institution);
    MoveKeepsMatch(keys, s.store, s.content, id, KeyOf(row));
    StagingKeyFree(home, s.bitstreams, id, row, institution);
    RowKeyed(home, s.bitstreams, id);
    KeyedPresent(home[id], s.bitstreams[id]);
    KeyedPresent(institution, row);
    assert KeysOf(s.bitstreams[id := row]) == keys[id := KeyOf(row)];
  }

  lemma GoodFromHome(s: State, s': State, home: map<int, string>)
    requires GoodUnder(s', home) && home == HomeOf(s')
    requires s'.institutionOf == s.institutionOf && forall i :: i in s.institutionOf ==> '/' !in s.institutionOf[i]
    ensures Good(s')
  {}

  lemma GoodInPlace(s: State, s': State, id: int, row: Bitstream)
    requires id in s.bitstreams && row.item == s.bitstreams[id].item
    requires s'.bitstreams == s.bitstreams[id := row] && s'.institutionOf == s.institutionOf
    requires GoodUnder(s', HomeOf(s)[id := HomeOf(s)[id]])
    requires forall i :: i in s.institutionOf ==> '/' !in s.institutionOf[i]
    ensures Good(s')
  {}

  /** The same, for a row that stays in its institution. */
  lemma SaveInPlace(s: State, id: int, row: Bitstream)
    requires Good(s) && id in s.bitstreams && Keyed(HomeOf(s)[id], row)
    requires KeyOf(row) != KeyOf(s.bitstreams[id])
    requires row.item == s.bitstreams[id].item && !NameTaken(s, id, row.item, row.filename)
    ensures SaveRow(s, id, row).ok <==> id in s.content
    ensures !SaveRow(s, id, row).ok ==> SaveRow(s, id, row).state == s
    ensures Good(SaveRow(s, id, row).state)
    ensures SaveRow(s, id, row).ok ==> KeyOf(s.bitstreams[id]) !in SaveRow(s, id, row).state.store
  {
    GoodRow(s, id);
    SaveKeepsGood(s, HomeOf(s), id, row, HomeOf(s)[id]);
    SavedInPlace(s, id, row, SaveRow(s, id, row));
  }

  lemma SavedInPlace(s: State, id: int, row: Bitstream, r: Outcome)
    requires Good(s) && id in s.bitstreams && row.item == s.bitstreams[id].item
    requires Saved(s, HomeOf(s), id, row, HomeOf(s)[id], r)
    ensures Good(r.state)
  {
    if r.ok { GoodInPlace(s, r.state, id, row); }
  }

  /** From a key to another one, both saves are the same. */
  lemma SaveRowMoves(s: State, i: string, id: int, row: Bitstream)
    requires id in s.bitstreams && Keyed(i, s.bitstreams[id]) && Keyed(i, row)
    requires KeyOf(row) != KeyOf(s.bitstreams[id])
    ensures SaveMoved(s, id, row, KeyOf(s.bitstreams[id]), KeyOf(row)) == SaveRow(s, id, row)
  {
    KeyedPresent(i, s.bitstreams[id]);
    KeyedPresent(i, row);
  }

  // ----- one step -----

  lemma AddRow(s: State, id: int, row: Bitstream, institution: string)
    requires Good(s) && id !in s.bitstreams && row.item in s.institutionOf
    requires s.institutionOf[row.item] == institution && Keyed(institution, row)
    requires !NameTaken(s, id, row.item, row.filename)
    ensures Good(s.(bitstreams := s.bitstreams[id := row]))
  {
    var bs' := s.bitstreams[id := row];
    LocatedUpdate(HomeOf(s), s.bitstreams, id, row, institution);
    AddRowMatches(KeysOf(s.bitstreams), s.store, s.content, id, KeyOf(row));
    assert KeysOf(bs') == KeysOf(s.bitstreams)[id := KeyOf(row)];
    HomeWithRow(s, id, row);
    GoodFromHome(s, s.(bitstreams := bs'), HomeOf(s)[id := institution]);
  }

  lemma HomeWithRow(s: State, id: int, row: Bitstream)
    requires row.item in s.institutionOf
    ensures HomeOf(s.(bitstreams := s.bitstreams[id := row])) == HomeOf(s)[id := s.institutionOf[row.item]]
  {}

  lemma AddRowMatches(keys: map<int, string>, store: Objects, content: map<int, Content>, id: int, key: string)
    requires Matches(keys, store, content) && id !in keys
    ensures Matches(keys[id := key], store, content)
  {}

  lemma CreateKeepsGood(s: State, id: int, item: nat, filename: string)
    requires Good(s)
    ensures Good(CreateInStaging(s, id, item, filename).state)
    ensures CreateInStaging(s, id, item, filename).ok <==>
            id !in s.bitstreams && item in s.institutionOf && !NameTaken(s, id, item, filename)
  {
    if id !in s.bitstreams && item in s.institutionOf && !NameTaken(s, id, item, filename) {
      CreateAddsRow(s, id, item, filename);
    }
  }

  lemma CreateAddsRow(s: State, id: int, item: nat, filename: string)
    requires Good(s) && id !in s.bitstreams && item in s.institutionOf && !NameTaken(s, id, item, filename)
    ensures CreateInStaging(s, id, item, filename).ok && Good(CreateInStaging(s, id, item, filename).state)
  {
    var i := s.institutionOf[item];
    var row := Bitstream(item, filename, filename, Some(StagingKey(i, item, filename)), None);
    AddRow(s, id, row, i);
    StagingKeyFree(HomeOf(s), s.bitstreams, id, row, i);
  }

  /** The upload goes to the bitstream's own key. */
  lemma UploadKeepsGood(s: State, id: int, data: Content)
    requires Good(s) && id in s.bitstreams
    ensures Upload(s, id, data).ok && Good(Upload(s, id, data).state)
    ensures Upload(s, id, data).state ==
            s.(store := s.store[KeyOf(s.bitstreams[id]) := data], content := s.content[id := data])
  {
    GoodRow(s, id);
    KeyedPresent(HomeOf(s)[id], s.bitstreams[id]);
    LocatedInjective(HomeOf(s), s.bitstreams);
    var s' := Upload(s, id, data).state;
    var keys := KeysOf(s.bitstreams);
    forall k | k in s'.store ensures exists b :: b in s'.content && keys[b] == k {
      if k == keys[id] {
        assert id in s'.content;
      } else {
        var b :| b in s.content && keys[b] == k;
        assert b in s'.content;
      }
    }
    assert Matches(keys, s'.store, s'.content);
    assert HomeOf(s') == HomeOf(s);
  }

  /**
    An import adds its file exactly when the name is new, to a key that was free,
    and keeps the invariant exactly when it adds nothing or completes.
   */
  lemma ImportKeepsGoodIff(s: State, id: int, item: nat, filename: string, data: Content, completes: bool)
    requires Good(s)
    ensures Good(ImportFile(s, id, item, filename, data, completes).state) <==>
            completes || !Importable(s, id, item, filename)
    ensures !Importable(s, id, item, filename) ==> ImportFile(s, id, item, filename, data, completes).state == s
    ensures Importable(s, id, item, filename) ==>
              PermanentKey(s.institutionOf[item], item, filename) !in s.store
  {
    if Importable(s, id, item, filename) {
      ImportAddsFile(s, id, item, filename, data);
      var key := PermanentKey(s.institutionOf[item], item, filename);
      if !completes { ObjectStranded(ImportFile(s, id, item, filename, data, completes).state, key); }
    }
  }

  lemma ImportAddsFile(s: State, id: int, item: nat, filename: string, data: Content)
    requires Good(s) && Importable(s, id, item, filename)
    ensures ImportRow(s, id, item, filename, data).ok && Good(ImportRow(s, id, item, filename, data).state)
    ensures var key := PermanentKey(s.institutionOf[item], item, filename);
            key !in s.store && forall b :: b in s.bitstreams ==> KeyOf(s.bitstreams[b]) != key
  {
    var i := s.institutionOf[item];
    var row := Bitstream(item, filename, filename, None, Some(PermanentKey(i, item, filename)));
    AddRow(s, id, row, i);
    UploadKeepsGood(s.(bitstreams := s.bitstreams[id := row]), id, data);
    KeyUnused(HomeOf(s), s.bitstreams, id, row, i);
  }

  /** An object that is nobody's. */
  lemma ObjectStranded(s: State, key: string)
    requires key in s.store && forall b :: b in s.bitstreams ==> KeyOf(s.bitstreams[b]) != key
    ensures !Good(s)
  {}

  /** The name a file would have to take back is another file's. */
  predicate TakesNameBack(s: State, id: int, filename: Option<string>)
    requires id in s.bitstreams
  {
    filename.None? && NameTaken(s, id, s.bitstreams[id].item, s.bitstreams[id].original)
  }

  /** Both files are in the area whose keys their common name would give them, and the other one has an object. */
  ghost predicate OverwritesAnother(s: State, id: int)
    requires id in s.bitstreams
  {
    exists c :: c in s.bitstreams && c in s.content && c != id && Overwritten(s.bitstreams[id], s.bitstreams[c])
  }

  predicate Overwritten(b: Bitstream, other: Bitstream) {
    && other.item == b.item && other.filename == b.original
    && (other.permanentKey.Some? <==> b.permanentKey.Some?)
  }

  /** Whether the rename is accepted and, when the row has an object to move, finds it and can save the new key. */
  ghost predicate RenameGoesThrough(s: State, id: int, filename: Option<string>) {
    && id in s.bitstreams && !NameRefused(s, id, filename)
    && (Blank(s.bitstreams[id].filename)
        || (id in s.content && !(TakesNameBack(s, id, filename) && SharesStaging(s, id))))
  }

  /** A staged file whose original name is that of another staged file of its item. */
  ghost predicate SharesStaging(s: State, id: int)
    requires id in s.bitstreams
  {
    && s.bitstreams[id].stagingKey.Some?
    && exists c :: c in s.bitstreams && c != id && s.bitstreams[c].stagingKey.Some?
                   && Overwritten(s.bitstreams[id], s.bitstreams[c])
  }

  /**
    What a caller can check: nothing changes, or the object moves along to a name
    that no other file has, or there is none to move.
   */
  ghost predicate RenameIsSafe(s: State, id: int, filename: Option<string>, completes: bool)
    requires id in s.bitstreams
  {
    || NewName(s.bitstreams[id], filename) == s.bitstreams[id].filename
    || NameRefused(s, id, filename)
    || if Blank(s.bitstreams[id].filename) then !completes
       else id !in s.content || (completes && !TakesNameBack(s, id, filename))
  }

  /**
    A rename keeps the invariant exactly when it is refused at once or changes
    nothing, or the old filename is not blank and either the new one is free and
    the save completes or the object was never uploaded, or the old filename is
    blank and the save is taken back.
   */
  lemma RenameKeepsGoodIff(s: State, id: int, filename: Option<string>, completes: bool)
    requires Good(s) && id in s.bitstreams
    ensures Rename(s, id, filename, completes).ok <==>
            && (NewName(s.bitstreams[id], filename) == s.bitstreams[id].filename || RenameGoesThrough(s, id, filename))
            && completes
    ensures Good(Rename(s, id, filename, completes).state) <==> RenameIsSafe(s, id, filename, completes)
    ensures !Rename(s, id, filename, completes).ok && RenameIsSafe(s, id, filename, completes) ==>
              Rename(s, id, filename, completes).state == s
  {
    var name := NewName(s.bitstreams[id], filename);
    if name == s.bitstreams[id].filename || NameRefused(s, id, filename) {
      GoodRow(s, id);
    } else if NameTaken(s, id, s.bitstreams[id].item, name) {
      TakenNameBack(s, id, filename, completes);
    } else {
      RenameToFreeName(s, id, filename, completes);
    }
  }

  /** Content without its object is a loss. */
  lemma ObjectMissing(s: State, b: int)
    requires b in s.content && b in s.bitstreams && KeyOf(s.bitstreams[b]) !in s.store
    ensures !Good(s)
  {}

  lemma RenamedKeyDiffers(institution: string, b: Bitstream, row: Bitstream)
    requires '/' !in institution && Keyed(institution, b) && Keyed(institution, row) && b.item == row.item
    requires b.filename != row.filename
    ensures KeyOf(row) != KeyOf(b)
  {
    KeysDiffer(institution, row, institution, b);
  }

  lemma StaleKey(institution: string, b: Bitstream, filename: string)
    requires '/' !in institution && Keyed(institution, b) && filename != b.filename
    ensures !Keyed(institution, b.(filename := filename))
  {
    if Keyed(institution, b.(filename := filename)) {
      KeysDiffer(institution, b, institution, b.(filename := filename));
    }
  }

  lemma RenameFromBlank(s: State, id: int, filename: Option<string>)
    requires Good(s) && id in s.bitstreams && !NameRefused(s, id, filename) && Blank(s.bitstreams[id].filename)
    requires NewName(s.bitstreams[id], filename) != s.bitstreams[id].filename
    ensures RenameRow(s, id, filename).ok && !Good(RenameRow(s, id, filename).state)
    ensures RolledBack(s, RenameRow(s, id, filename).state) == s
  {
    GoodRow(s, id);
    var b, i, name := s.bitstreams[id], HomeOf(s)[id], NewName(s.bitstreams[id], filename);
    StaleKey(i, b, name);
    var s' := RenameRow(s, id, filename).state;
    assert s'.bitstreams[id] == b.(filename := name) && HomeOf(s')[id] == i;
    assert !KeyedAt(HomeOf(s')[id], s'.bitstreams[id]);
  }

  lemma RenameIsMove(s: State, id: int, filename: Option<string>, i: string, row: Bitstream)
    requires id in s.bitstreams && s.bitstreams[id].item in s.institutionOf && '/' !in i
    requires i == s.institutionOf[s.bitstreams[id].item] && !NameRefused(s, id, filename)
    requires NewName(s.bitstreams[id], filename) != s.bitstreams[id].filename
    requires !Blank(s.bitstreams[id].filename) && Keyed(i, s.bitstreams[id])
    requires row == RowIn(i, s.bitstreams[id].(filename := NewName(s.bitstreams[id], filename)))
    ensures Keyed(i, row) && KeyOf(row) != KeyOf(s.bitstreams[id])
    ensures row.item == s.bitstreams[id].item && row.filename == NewName(s.bitstreams[id], filename)
    ensures row.stagingKey.Some? <==> s.bitstreams[id].stagingKey.Some?
    ensures RenameRow(s, id, filename) == SaveMoved(s, id, row, KeyOf(s.bitstreams[id]), KeyOf(row))
  {
    KeyedPresent(i, s.bitstreams[id]);
    RenamedKeyDiffers(i, s.bitstreams[id], row);
  }

  lemma RenameMovesObject(s: State, id: int, filename: Option<string>)
    requires Good(s) && id in s.bitstreams && !Blank(s.bitstreams[id].filename)
    requires NewName(s.bitstreams[id], filename) != s.bitstreams[id].filename
    requires !NameTaken(s, id, s.bitstreams[id].item, NewName(s.bitstreams[id], filename))
    ensures RenameRow(s, id, filename).ok <==> id in s.content
    ensures Good(RenameRow(s, id, filename).state)
    ensures id !in s.content ==> RenameRow(s, id, filename).state == s
    ensures id in s.content ==> KeyOf(s.bitstreams[id]) !in RenameRow(s, id, filename).state.store
  {
    GoodRow(s, id);
    var b, i := s.bitstreams[id], HomeOf(s)[id];
    var row := RowIn(i, b.(filename := NewName(b, filename)));
    RenameIsMove(s, id, filename, i, row);
    SaveRowMoves(s, i, id, row);
    SaveInPlace(s, id, row);
  }

  /** The key of another row that has the same institution. */
  lemma SameKeyIff(institution: string, row: Bitstream, home: string, other: Bitstream)
    requires '/' !in institution && '/' !in home && Keyed(institution, row) && Keyed(home, other)
    requires other.item == row.item ==> home == institution
    ensures KeyOf(other) == KeyOf(row) <==>
            && other.item == row.item && other.filename == row.filename
            && (other.permanentKey.Some? <==> row.permanentKey.Some?)
  {
    if KeyOf(other) == KeyOf(row) {
      KeyInjective(if other.permanentKey.Some? then "storage" else "uploads", home, other.item, other.filename,
                   if row.permanentKey.Some? then "storage" else "uploads", institution, row.item, row.filename);
      assert "storage"[0] != "uploads"[0];
    }
  }

  /** The row with its original name, and whose keys it then has. */
  lemma TakenNameKeys(s: State, id: int, row: Bitstream)
    requires Good(s) && id in s.bitstreams && Keyed(HomeOf(s)[id], row) && row.item == s.bitstreams[id].item
    requires row.filename == s.bitstreams[id].original && KeyOf(row) != KeyOf(s.bitstreams[id])
    requires row.stagingKey.Some? <==> s.bitstreams[id].stagingKey.Some?
    ensures StagingKeyTaken(s, id, row.stagingKey) <==> SharesStaging(s, id)
    ensures KeyOf(row) in s.store <==> OverwritesAnother(s, id)
  {
    GoodRow(s, id);
    forall c | c in s.bitstreams && c != id
      ensures KeyOf(s.bitstreams[c]) == KeyOf(row) <==> Overwritten(s.bitstreams[id], s.bitstreams[c])
      ensures s.bitstreams[c].stagingKey.Some? ==> KeyOf(s.bitstreams[c]) == s.bitstreams[c].stagingKey.value
    {
      GoodRow(s, c);
      KeyedPresent(HomeOf(s)[c], s.bitstreams[c]);
      SameKeyIff(HomeOf(s)[id], row, HomeOf(s)[c], s.bitstreams[c]);
    }
    KeyedPresent(HomeOf(s)[id], row);
    if KeyOf(row) in s.store {
      var c :| c in s.content && KeysOf(s.bitstreams)[c] == KeyOf(row);
      assert c != id;
    }
    if OverwritesAnother(s, id) {
      var c :| c in s.bitstreams && c in s.content && c != id && Overwritten(s.bitstreams[id], s.bitstreams[c]);
      assert KeysOf(s.bitstreams)[c] == KeyOf(row);
    }
  }

  /** The object goes to the original name, and the row with it unless the staging key is in use. */
  lemma TakenNameMoves(s: State, id: int)
    requires Good(s) && id in s.bitstreams && TakesNameBack(s, id, None)
    requires s.bitstreams[id].original != s.bitstreams[id].filename && !Blank(s.bitstreams[id].filename)
    ensures var r := RenameRow(s, id, None);
            && (id !in s.content ==> r == Outcome(s, false))
            && (id in s.content ==> KeyOf(s.bitstreams[id]) !in r.state.store && (r.ok <==> !SharesStaging(s, id)))
            && r.state.content == s.content && r.state.institutionOf == s.institutionOf
            && (!r.ok ==> r.state == RolledBack(s, r.state))
            && (r.ok ==> NamedBack(s, id, r.state))
  {
    GoodRow(s, id);
    var b, i := s.bitstreams[id], HomeOf(s)[id];
    var row := RowIn(i, b.(filename := b.original));
    RenameIsMove(s, id, None, i, row);
    TakenNameKeys(s, id, row);
    LocatedInjective(HomeOf(s), s.bitstreams);
    assert KeysOf(s.bitstreams)[id] == KeyOf(b);
  }

  /** The row has its original name, and the others are as they were. */
  ghost predicate NamedBack(s: State, id: int, t: State)
    requires id in s.bitstreams
  {
    && t.bitstreams.Keys == s.bitstreams.Keys
    && t.bitstreams[id].item == s.bitstreams[id].item && t.bitstreams[id].filename == s.bitstreams[id].original
    && forall b :: b in s.bitstreams && b != id ==> t.bitstreams[b] == s.bitstreams[b]
  }

  /** The name is given to no other file. */
  lemma RenameToFreeName(s: State, id: int, filename: Option<string>, completes: bool)
    requires Good(s) && id in s.bitstreams && NewName(s.bitstreams[id], filename) != s.bitstreams[id].filename
    requires !NameTaken(s, id, s.bitstreams[id].item, NewName(s.bitstreams[id], filename))
    ensures Rename(s, id, filename, completes).ok <==>
            (Blank(s.bitstreams[id].filename) || id in s.content) && completes
    ensures Good(Rename(s, id, filename, completes).state) <==>
            if Blank(s.bitstreams[id].filename) then !completes else completes || id !in s.content
    ensures !completes && (Blank(s.bitstreams[id].filename) || id !in s.content) ==>
              Rename(s, id, filename, completes).state == s
    ensures id !in s.content && !Blank(s.bitstreams[id].filename) ==> Rename(s, id, filename, completes).state == s
  {
    GoodRow(s, id);
    var r := RenameRow(s, id, filename);
    if Blank(s.bitstreams[id].filename) {
      RenameFromBlank(s, id, filename);
    } else {
      RenameMovesObject(s, id, filename);
      if r.ok && !completes { ObjectMissing(RolledBack(s, r.state), id); }
    }
  }

  /** Two files of one item have one name. */
  lemma NamesClash(s: State, id: int, c: int)
    requires id in s.bitstreams && c in s.bitstreams && c != id
    requires s.bitstreams[c].item == s.bitstreams[id].item && s.bitstreams[c].filename == s.bitstreams[id].filename
    ensures !Good(s)
  {
    assert !NamesDiffer(s.bitstreams[id], s.bitstreams[c]);
  }

  /** A name that is taken back without a check although another file has it. */
  lemma TakenNameBack(s: State, id: int, filename: Option<string>, completes: bool)
    requires Good(s) && id in s.bitstreams && TakesNameBack(s, id, filename)
    requires s.bitstreams[id].original != s.bitstreams[id].filename
    ensures Rename(s, id, filename, completes).ok <==> RenameGoesThrough(s, id, filename) && completes
    ensures Good(Rename(s, id, filename, completes).state) <==>
            if Blank(s.bitstreams[id].filename) then !completes else id !in s.content
    ensures Good(Rename(s, id, filename, completes).state) ==>
              !Rename(s, id, filename, completes).ok && Rename(s, id, filename, completes).state == s
  {
    GoodRow(s, id);
    var r := RenameRow(s, id, filename);
    if Blank(s.bitstreams[id].filename) {
      RenameFromBlank(s, id, filename);
    } else {
      TakenNameMoves(s, id);
    }
    if r.ok && completes {
      var c :| c in s.bitstreams && c != id && s.bitstreams[c].item == s.bitstreams[id].item
               && s.bitstreams[c].filename == s.bitstreams[id].original;
      NamesClash(r.state, id, c);
    } else if !Blank(s.bitstreams[id].filename) && id in s.content {
      ObjectMissing(Rename(s, id, filename, completes).state, id);
    }
  }

  lemma MoveIntoPermanentKeepsGood(s: State, id: int)
    requires Good(s) && id in s.bitstreams
    ensures MoveIntoPermanentStorage(s, id).ok <==> s.bitstreams[id].stagingKey.Some? && id in s.content
    ensures !MoveIntoPermanentStorage(s, id).ok ==> MoveIntoPermanentStorage(s, id).state == s
    ensures Good(MoveIntoPermanentStorage(s, id).state)
  {
    GoodRow(s, id);
    var b, i := s.bitstreams[id], HomeOf(s)[id];
    KeyedPresent(i, b);
    if b.stagingKey.Some? {
      AreasDiffer(i, b.item, b.filename);
      OwnNameFree(s, HomeOf(s), id);
      SaveRowMoves(s, i, id, Archived(i, b));
      SaveInPlace(s, id, Archived(i, b));
    }
  }

  lemma AreasDiffer(institution: string, item: nat, filename: string)
    requires '/' !in institution
    ensures StagingKey(institution, item, filename) != PermanentKey(institution, item, filename)
  {
    if StagingKey(institution, item, filename) == PermanentKey(institution, item, filename) {
      KeyInjective("uploads", institution, item, filename, "storage", institution, item, filename);
    }
  }

  /** A deletion keeps the invariant exactly when it completes or there is no object to lose. */
  lemma DestroyKeepsGoodIff(s: State, id: int, completes: bool)
    requires Good(s) && id in s.bitstreams
    ensures Destroy(s, id, completes).ok <==> completes
    ensures Good(Destroy(s, id, completes).state) <==> completes || id !in s.content
    ensures !completes && id !in s.content ==> Destroy(s, id, completes).state == s
  {
    DestroyRowKeepsGood(s, id);
    if !completes {
      var s' := Destroy(s, id, completes).state;
      if id in s.content { ObjectMissing(s', id); } else { assert s'.store == s.store; }
    }
  }

  lemma DestroyRowKeepsGood(s: State, id: int)
    requires Good(s) && id in s.bitstreams
    ensures DestroyRow(s, id).ok && Good(DestroyRow(s, id).state)
    ensures DestroyRow(s, id).state.store == s.store - {KeyOf(s.bitstreams[id])}
    ensures id !in s.content ==> KeyOf(s.bitstreams[id]) !in s.store
  {
    GoodRow(s, id);
    var b, home := s.bitstreams[id], HomeOf(s);
    KeyedPresent(home[id], b);
    LocatedInjective(home, s.bitstreams);
    var s' := DestroyRow(s, id).state;
    assert s'.store == s.store - {KeyOf(b)};
    var keys, keys' := KeysOf(s.bitstreams), KeysOf(s'.bitstreams);
    forall k | k in s'.store ensures exists c :: c in s'.content && keys'[c] == k {
      var c :| c in s.content && keys[c] == k;
      assert c != id && c in s'.content;
    }
    assert HomeOf(s') == home - {id};
    assert Located(HomeOf(s'), s'.bitstreams);
    assert Matches(keys', s'.store, s'.content);
  }
}
