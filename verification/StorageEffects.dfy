/** What the storage operations do under the invariant, in terms of rows, keys and objects alone. */
module StorageEffects {
  import opened Storage
  import opened StorageKeys
  import opened StorageMoves
  import opened Text
  import opened Wrappers

  /** `institutions/<institution>/<area>/<item>/<filename>` */
  function KeyPath(institution: string, area: string, item: nat, filename: string): string {
    Join(["institutions", institution, area, Decimal(item), filename], '/')
  }

  predicate HasKey(b: Bitstream, k: string) { b.permanentKey == Some(k) || b.stagingKey == Some(k) }

  /** One key in one of the two areas. */
  ghost predicate HasOwnKey(s: State, b: Bitstream) {
    && b.item in s.institutionOf
    && var institution := s.institutionOf[b.item];
    || (b.permanentKey == Some(KeyPath(institution, "storage", b.item, b.filename)) && b.stagingKey == None)
    || (b.stagingKey == Some(KeyPath(institution, "uploads", b.item, b.filename)) && b.permanentKey == None)
  }

  ghost predicate NamesAreUnique(s: State) {
    forall a, b :: a in s.bitstreams && b in s.bitstreams && a != b && s.bitstreams[a].item == s.bitstreams[b].item ==>
      s.bitstreams[a].filename != s.bitstreams[b].filename
  }

  ghost predicate HasObject(s: State, b: int)
    requires b in s.content
  {
    b in s.bitstreams && exists k :: HasKey(s.bitstreams[b], k) && k in s.store && s.store[k] == s.content[b]
  }

  ghost predicate BelongsToOne(s: State, k: string) {
    exists b :: b in s.content && b in s.bitstreams && HasKey(s.bitstreams[b], k)
  }

  /** The invariant: own keys without ambiguity, unique names, and exactly the uploaded contents in the store. */
  lemma GoodMeans(s: State)
    ensures Good(s) <==>
            && (forall i :: i in s.institutionOf ==> '/' !in s.institutionOf[i])
            && (forall b :: b in s.bitstreams ==> HasOwnKey(s, s.bitstreams[b]))
            && NamesAreUnique(s)
            && (forall b :: b in s.content ==> HasObject(s, b))
            && (forall k :: k in s.store ==> BelongsToOne(s, k))
  {
    if (forall i :: i in s.institutionOf ==> '/' !in s.institutionOf[i])
       && (forall b :: b in s.bitstreams ==> HasOwnKey(s, s.bitstreams[b])) {
      LocatedMeans(s);
      MatchesMeans(s);
    } else if Good(s) {
      OwnKeys(s);
    }
  }

  lemma RowKeys(s: State, b: Bitstream)
    ensures HasOwnKey(s, b) <==> b.item in s.institutionOf && Keyed(s.institutionOf[b.item], b)
  {
    if b.item in s.institutionOf { KeysAre(s.institutionOf[b.item], b.item, b.filename); }
  }

  lemma OwnKeys(s: State)
    requires Good(s)
    ensures forall b :: b in s.bitstreams ==> HasOwnKey(s, s.bitstreams[b])
  {
    forall b | b in s.bitstreams ensures HasOwnKey(s, s.bitstreams[b]) {
      GoodRow(s, b);
      RowKeys(s, s.bitstreams[b]);
    }
  }

  lemma LocatedMeans(s: State)
    requires forall i :: i in s.institutionOf ==> '/' !in s.institutionOf[i]
    requires forall b :: b in s.bitstreams ==> HasOwnKey(s, s.bitstreams[b])
    ensures Located(HomeOf(s), s.bitstreams) <==> NamesAreUnique(s)
  {
    forall b | b in s.bitstreams ensures KeyedAt(HomeOf(s)[b], s.bitstreams[b]) { RowKeys(s, s.bitstreams[b]); }
    if Located(HomeOf(s), s.bitstreams) {
      forall a, b | a in s.bitstreams && b in s.bitstreams && a != b && s.bitstreams[a].item == s.bitstreams[b].item
        ensures s.bitstreams[a].filename != s.bitstreams[b].filename
      {
        assert NamesDiffer(s.bitstreams[a], s.bitstreams[b]);
      }
    }
  }

  ghost predicate OwnKey(s: State, keys: map<int, string>) {
    keys.Keys == s.bitstreams.Keys && forall b, k :: b in s.bitstreams ==> (HasKey(s.bitstreams[b], k) <==> keys[b] == k)
  }

  lemma KeysAreOwn(s: State)
    requires forall b :: b in s.bitstreams ==> HasOwnKey(s, s.bitstreams[b])
    ensures OwnKey(s, KeysOf(s.bitstreams))
  {}

  lemma PlainlyMatches(s: State, keys: map<int, string>)
    requires OwnKey(s, keys)
    requires (forall b :: b in s.content ==> HasObject(s, b)) && (forall k :: k in s.store ==> BelongsToOne(s, k))
    ensures Matches(keys, s.store, s.content)
  {
    forall b | b in s.content ensures b in keys && keys[b] in s.store && s.store[keys[b]] == s.content[b] {
      assert HasObject(s, b);
    }
    forall k | k in s.store ensures exists b :: b in s.content && keys[b] == k {
      assert BelongsToOne(s, k);
    }
  }

  lemma MatchesPlainly(s: State, keys: map<int, string>)
    requires OwnKey(s, keys) && Matches(keys, s.store, s.content)
    ensures forall b :: b in s.content ==> HasObject(s, b)
    ensures forall k :: k in s.store ==> BelongsToOne(s, k)
  {
    forall b | b in s.content ensures HasObject(s, b) {
      assert b in keys.Keys && HasKey(s.bitstreams[b], keys[b]);
    }
    forall k | k in s.store ensures BelongsToOne(s, k) {
      var b :| b in s.content && keys[b] == k;
      assert b in keys.Keys && HasKey(s.bitstreams[b], k);
    }
  }

  lemma MatchesMeans(s: State)
    requires forall b :: b in s.bitstreams ==> HasOwnKey(s, s.bitstreams[b])
    ensures Matches(KeysOf(s.bitstreams), s.store, s.content) <==>
            (forall b :: b in s.content ==> HasObject(s, b)) && (forall k :: k in s.store ==> BelongsToOne(s, k))
  {
    KeysAreOwn(s);
    if (forall b :: b in s.content ==> HasObject(s, b)) && (forall k :: k in s.store ==> BelongsToOne(s, k)) {
      PlainlyMatches(s, KeysOf(s.bitstreams));
    }
    if Matches(KeysOf(s.bitstreams), s.store, s.content) { MatchesPlainly(s, KeysOf(s.bitstreams)); }
  }

  // ----- adding files -----

  /** A new file gets a staging key; it is refused if its item is unknown or has a file of that name. */
  lemma CreateEffect(s: State, id: int, item: nat, filename: string)
    requires Good(s)
    ensures var r := CreateInStaging(s, id, item, filename);
            && (r.ok <==>
                && id !in s.bitstreams && item in s.institutionOf
                && forall b :: b in s.bitstreams ==>
                     s.bitstreams[b].item != item || s.bitstreams[b].filename != filename)
            && (!r.ok ==> r.state == s)
            && (r.ok ==>
                r.state == s.(bitstreams := s.bitstreams[id := Bitstream(item, filename, filename,
                                Some(KeyPath(s.institutionOf[item], "uploads", item, filename)), None)]))
  {
    CreateKeepsGood(s, id, item, filename);
    if item in s.institutionOf { KeysAre(s.institutionOf[item], item, filename); }
  }

  /** An imported file gets a permanent key and its content there, unless the item has a file of that name. */
  lemma ImportEffect(s: State, id: int, item: nat, filename: string, data: Content, completes: bool)
    requires id !in s.bitstreams && item in s.institutionOf
    ensures var r, key := ImportFile(s, id, item, filename, data, completes),
                          KeyPath(s.institutionOf[item], "storage", item, filename);
            && r.ok == completes && r.state.institutionOf == s.institutionOf
            && if exists b :: b in s.bitstreams && s.bitstreams[b].item == item && s.bitstreams[b].filename == filename
               then r.state == s
               else && r.state.store == s.store[key := data]
                    && r.state.bitstreams == (if completes then s.bitstreams[id := Bitstream(item, filename, filename,
                                                                                             None, Some(key))]
                                              else s.bitstreams)
                    && r.state.content == (if completes then s.content[id := data] else s.content)
  {
    KeysAre(s.institutionOf[item], item, filename);
  }

  /** A present permanent key counts first, then a present staging key. */
  lemma UploadEffect(s: State, id: int, data: Content)
    requires id in s.bitstreams
    ensures var b, r := s.bitstreams[id], Upload(s, id, data);
            && (r.ok <==> Present(b.permanentKey) || Present(b.stagingKey))
            && (!r.ok ==> r.state == s)
            && (r.ok ==>
                var key := if Present(b.permanentKey) then b.permanentKey.value else b.stagingKey.value;
                r.state == s.(store := s.store[key := data], content := s.content[id := data]))
  {}

  // ----- moving and deleting them -----

  /** `t` is `s` with one row saved under a new key and its object taken along. */
  ghost predicate MovedTo(s: State, id: int, row: Bitstream, t: State)
    requires id in s.bitstreams
  {
    exists source, target :: HasKey(s.bitstreams[id], source) && HasKey(row, target) && source in s.store
      && t == State(s.institutionOf, s.bitstreams[id := row], s.store[target := s.store[source]] - {source}, s.content)
  }

  /** A staged file that was uploaded goes to its permanent key. */
  lemma ApproveEffect(s: State, id: int)
    requires Good(s) && id in s.bitstreams
    ensures var b, r := s.bitstreams[id], MoveIntoPermanentStorage(s, id);
            && b.item in s.institutionOf
            && (r.ok <==> b.stagingKey.Some? && id in s.content)
            && (!r.ok ==> r.state == s)
            && (r.ok ==>
                var key := KeyPath(s.institutionOf[b.item], "storage", b.item, b.filename);
                MovedTo(s, id, Bitstream(b.item, b.filename, b.original, None, Some(key)), r.state))
  {
    var b := s.bitstreams[id];
    GoodRow(s, id);
    MoveIntoPermanentKeepsGood(s, id);
    var i := s.institutionOf[b.item];
    KeysAre(i, b.item, b.filename);
    KeyedPresent(i, b);
    if b.stagingKey.Some? && id in s.content {
      assert HasKey(b, b.stagingKey.value) && HasKey(Archived(i, b), PermanentKey(i, b.item, b.filename));
    }
  }

  /** The object goes, and the row with it if the deletion completes. */
  lemma DeleteEffect(s: State, id: int, completes: bool)
    requires Good(s) && id in s.bitstreams
    ensures var r := Destroy(s, id, completes);
            && r.ok == completes && r.state.institutionOf == s.institutionOf
            && (exists k :: HasKey(s.bitstreams[id], k) && r.state.store == s.store - {k})
            && r.state.bitstreams == (if completes then s.bitstreams - {id} else s.bitstreams)
            && r.state.content == (if completes then s.content - {id} else s.content)
  {
    GoodRow(s, id);
    KeyedPresent(HomeOf(s)[id], s.bitstreams[id]);
    DestroyRowKeepsGood(s, id);
    assert HasKey(s.bitstreams[id], KeyOf(s.bitstreams[id]));
  }

  /** The same row with the key it has in another institution, in the area where it is. */
  function InInstitution(b: Bitstream, institution: string): Bitstream {
    if b.permanentKey.Some? then b.(permanentKey := Some(KeyPath(institution, "storage", b.item, b.filename)))
    else b.(stagingKey := Some(KeyPath(institution, "uploads", b.item, b.filename)))
  }

  /** In a move to another institution a file takes its object along; it raises if it has none and is not there yet. */
  lemma RehomeEffect(s: State, id: int, institution: string)
    requires Good(s) && id in s.bitstreams && '/' !in institution
    ensures var b, r := s.bitstreams[id], Rehome(s, id, institution);
            && b.item in s.institutionOf
            && (r.ok <==> s.institutionOf[b.item] == institution || id in s.content)
            && (!r.ok || s.institutionOf[b.item] == institution ==> r.state == s)
            && (r.ok && s.institutionOf[b.item] != institution ==>
                MovedTo(s, id, InInstitution(b, institution), r.state))
  {
    var b := s.bitstreams[id];
    GoodRow(s, id);
    if s.institutionOf[b.item] == institution {
      RehomeStays(s, HomeOf(s), id, institution);
    } else {
      RehomeMoves(s, HomeOf(s), id, institution);
      if Rehome(s, id, institution).ok { RehomedRow(s, id, institution); }
    }
  }

  lemma RehomedRow(s: State, id: int, institution: string)
    requires Good(s) && id in s.bitstreams && '/' !in institution && Rehome(s, id, institution).ok
    requires HomeOf(s)[id] != institution
    ensures MovedTo(s, id, InInstitution(s.bitstreams[id], institution), Rehome(s, id, institution).state)
  {
    var b := s.bitstreams[id];
    var row := RowIn(institution, b);
    GoodRow(s, id);
    KeysAre(institution, b.item, b.filename);
    HomeInKey(HomeOf(s)[id], institution, b);
    KeyedPresent(HomeOf(s)[id], b);
    KeyedPresent(institution, row);
    assert row == InInstitution(b, institution);
    assert HasKey(b, KeyOf(b)) && HasKey(row, KeyOf(row));
  }

  /** A file of the items that is not in the institution yet. */
  ghost predicate HasToMove(s: State, b: int, items: set<nat>, institution: string) {
    && b in s.bitstreams && s.bitstreams[b].item in items
    && s.bitstreams[b].item in s.institutionOf && s.institutionOf[s.bitstreams[b].item] != institution
  }

  lemma PassesMeans(s: State, items: set<nat>, stops: seq<Stop>, institution: string)
    requires Good(s) && Covers(s, items, stops)
    ensures AllPass(s, HomeOf(s), stops, institution) <==>
            Check(false) !in stops && forall b :: HasToMove(s, b, items, institution) ==> b in s.content
  {
    forall b | b in s.bitstreams
      ensures s.bitstreams[b].item in s.institutionOf && HomeOf(s)[b] == s.institutionOf[s.bitstreams[b].item]
    {
      GoodRow(s, b);
    }
    if AllPass(s, HomeOf(s), stops, institution) {
      forall b | HasToMove(s, b, items, institution) ensures b in s.content {
        var i :| 0 <= i < |stops| && stops[i] == Rekey(b);
        assert Passes(s, HomeOf(s), stops[i], institution);
      }
    } else {
      var i :| 0 <= i < |stops| && !Passes(s, HomeOf(s), stops[i], institution);
      assert stops[i] in stops && (stops[i].Rekey? ==> HasToMove(s, stops[i].id, items, institution));
    }
  }

  /** A move gives the files of the items their keys in the institution, and leaves every other row as it is. */
  lemma RelocateEffect(s: State, items: set<nat>, stops: seq<Stop>, institution: string)
    requires Good(s) && '/' !in institution && items <= s.institutionOf.Keys && Covers(s, items, stops)
    ensures var r := Relocate(s, items, stops, institution);
            && (r.ok <==>
                Check(false) !in stops && forall b :: HasToMove(s, b, items, institution) ==> b in s.content)
            && (!r.ok ==> r.state == s.(store := r.state.store))
            && (r.ok ==>
                && r.state.content == s.content
                && r.state.institutionOf.Keys == s.institutionOf.Keys && r.state.bitstreams.Keys == s.bitstreams.Keys
                && (forall i :: i in s.institutionOf ==>
                      r.state.institutionOf[i] == if i in items then institution else s.institutionOf[i])
                && (forall b :: b in s.bitstreams ==>
                      r.state.bitstreams[b] == if s.bitstreams[b].item in items
                                               then InInstitution(s.bitstreams[b], institution) else s.bitstreams[b]))
  {
    PassesMeans(s, items, stops, institution);
    RelocateKeepsGoodIff(s, items, stops, institution);
    var t := Relocate(s, items, stops, institution).state;
    if Relocate(s, items, stops, institution).ok {
      assert SameFiles(t.(institutionOf := s.institutionOf), s) && SameAreas(s, t);
      forall b | b in s.bitstreams
        ensures b in t.bitstreams
        ensures t.bitstreams[b] == if s.bitstreams[b].item in items then InInstitution(s.bitstreams[b], institution)
                                   else s.bitstreams[b]
      {
        assert SameName(t.bitstreams[b], s.bitstreams[b]);
        RelocatedRow(s, t, items, institution, b);
      }
    }
  }

  lemma RelocatedRow(s: State, t: State, items: set<nat>, institution: string, b: int)
    requires Good(s) && Good(t) && t.institutionOf == Reassigned(s.institutionOf, items, institution)
    requires b in s.bitstreams && b in t.bitstreams && SameName(t.bitstreams[b], s.bitstreams[b])
    requires t.bitstreams[b].permanentKey.Some? <==> s.bitstreams[b].permanentKey.Some?
    ensures t.bitstreams[b] == if s.bitstreams[b].item in items then InInstitution(s.bitstreams[b], institution)
                               else s.bitstreams[b]
  {
    GoodRow(s, b);
    RowKeys(s, s.bitstreams[b]);
    GoodRow(t, b);
    RowKeys(t, t.bitstreams[b]);
  }

  // ----- renaming them -----

  /** The name a save gives a file: the one given, or the one it was created with. */
  function Named(b: Bitstream, filename: Option<string>): string {
    if filename == None then b.original else filename.value
  }

  predicate OtherHasName(s: State, id: int, name: string)
    requires id in s.bitstreams
  {
    exists c :: c in s.bitstreams && c != id && s.bitstreams[c].item == s.bitstreams[id].item
                && s.bitstreams[c].filename == name
  }

  predicate OtherStagedHasName(s: State, id: int, name: string)
    requires id in s.bitstreams
  {
    exists c :: c in s.bitstreams && c != id && s.bitstreams[c].stagingKey.Some?
                && s.bitstreams[c].item == s.bitstreams[id].item && s.bitstreams[c].filename == name
  }

  /**
    A rename is refused for a given name that another file of the item has. One
    that is accepted takes the object to the key of the new name, unless the old
    name was blank; without an object, or onto another staged file's key, it raises.
   */
  lemma RenameEffect(s: State, id: int, filename: Option<string>)
    requires Good(s) && id in s.bitstreams
    ensures var b, name, r := s.bitstreams[id], Named(s.bitstreams[id], filename), Rename(s, id, filename, true);
            && b.item in s.institutionOf
            && (name == b.filename ==> r == Outcome(s, true))
            && (name != b.filename && filename.Some? && OtherHasName(s, id, name) ==> r == Outcome(s, false))
            && (name != b.filename && Blank(b.filename) && !(filename.Some? && OtherHasName(s, id, name)) ==>
                r == Outcome(s.(bitstreams := s.bitstreams[id := b.(filename := name)]), true))
            && (name != b.filename && !Blank(b.filename) && !(filename.Some? && OtherHasName(s, id, name)) ==>
                && (id !in s.content ==> r == Outcome(s, false))
                && (r.ok <==> id in s.content && !(b.stagingKey.Some? && OtherStagedHasName(s, id, name)))
                && (r.ok ==> MovedTo(s, id, InInstitution(b.(filename := name), s.institutionOf[b.item]), r.state)))
  {
    var b, i, name := s.bitstreams[id], HomeOf(s)[id], NewName(s.bitstreams[id], filename);
    GoodRow(s, id);
    assert OtherHasName(s, id, name) <==> NameTaken(s, id, b.item, name);
    if name != b.filename && !Blank(b.filename) && !NameRefused(s, id, filename) {
      RenamedTo(s, id, filename);
      RenamedIff(s, id, filename);
    }
  }

  lemma RenamedIff(s: State, id: int, filename: Option<string>)
    requires Good(s) && id in s.bitstreams && NewName(s.bitstreams[id], filename) != s.bitstreams[id].filename
    requires !Blank(s.bitstreams[id].filename) && !NameRefused(s, id, filename)
    ensures var b := s.bitstreams[id];
            Rename(s, id, filename, true).ok <==>
            id in s.content && !(b.stagingKey.Some? && OtherStagedHasName(s, id, NewName(b, filename)))
  {
    RenameKeepsGoodIff(s, id, filename, true);
    OwnKeys(s);
    if filename.None? {
      assert OtherStagedHasName(s, id, s.bitstreams[id].original) ==> TakesNameBack(s, id, None);
      assert s.bitstreams[id].stagingKey.Some? ==>
             (OtherStagedHasName(s, id, s.bitstreams[id].original) <==> SharesStaging(s, id));
    }
  }

  lemma RenamedTo(s: State, id: int, filename: Option<string>)
    requires Good(s) && id in s.bitstreams && NewName(s.bitstreams[id], filename) != s.bitstreams[id].filename
    requires !Blank(s.bitstreams[id].filename) && !NameRefused(s, id, filename)
    ensures var b, r := s.bitstreams[id], Rename(s, id, filename, true);
            && (id !in s.content ==> r == Outcome(s, false))
            && (r.ok ==> MovedTo(s, id, InInstitution(b.(filename := NewName(b, filename)), HomeOf(s)[id]), r.state))
  {
    var b, i := s.bitstreams[id], HomeOf(s)[id];
    var row := RowIn(i, b.(filename := NewName(b, filename)));
    GoodRow(s, id);
    KeysAre(i, b.item, row.filename);
    KeyedPresent(i, b);
    RenameIsMove(s, id, filename, i, row);
    LocatedInjective(HomeOf(s), s.bitstreams);
    assert KeysOf(s.bitstreams)[id] == KeyOf(b);
    assert HasKey(b, KeyOf(b)) && HasKey(row, KeyOf(row));
    assert row == InInstitution(b.(filename := NewName(b, filename)), i);
  }
}
