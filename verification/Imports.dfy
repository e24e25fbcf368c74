/**
  Importing the files of a CSV file, in one transaction: what is left when it
  fails, and what depends on the list of an item's files being up to date.
 */
module Imports {
  import opened Storage
  import opened StorageKeys
  import opened StorageRuns

  datatype NewFile = NewFile(id: int, item: nat, filename: string, data: Content)

  // ----- the files of one transaction -----

  function ImportOne(s: State, f: NewFile): Outcome {
    ImportRow(s, f.id, f.item, f.filename, f.data)
  }

  /** One after the other, up to the first that raises. */
  function ImportAll(s: State, files: seq<NewFile>): Outcome {
    UntilRaised(s, files, ImportOne)
  }

  /** A failure, in a file or after all of them, takes the rows back and no object. */
  function ImportBatch(s: State, files: seq<NewFile>, completes: bool): Outcome {
    var r := ImportAll(s, files);
    if r.ok && completes then r else Outcome(RolledBack(s, r.state), false)
  }

  predicate Adds(s: State, f: NewFile) {
    Importable(s, f.id, f.item, f.filename)
  }

  function TargetOf(s: State, f: NewFile): string {
    if f.item in s.institutionOf then PermanentKey(s.institutionOf[f.item], f.item, f.filename) else ""
  }

  /** The keys of the files that are added before the first one that raises. */
  function AddedKeys(s: State, files: seq<NewFile>): set<string>
    decreases files
  {
    if files == [] then {} else
    var r := ImportOne(s, files[0]);
    (if Adds(s, files[0]) then {TargetOf(s, files[0])} else {})
    + if r.ok then AddedKeys(r.state, files[1..]) else {}
  }

  /** `t` has all rows and objects of `s`, and objects at `keys`, which were free and nobody's, besides. */
  ghost predicate Grown(s: State, keys: set<string>, t: State) {
    && t.institutionOf == s.institutionOf
    && (forall b :: b in s.bitstreams ==> b in t.bitstreams && t.bitstreams[b] == s.bitstreams[b])
    && t.store.Keys == s.store.Keys + keys && (forall k :: k in s.store ==> t.store[k] == s.store[k])
    && (forall k :: k in keys ==> k !in s.store && forall b :: b in s.bitstreams ==> KeyOf(s.bitstreams[b]) != k)
  }

  lemma GrownTwice(s: State, keys: set<string>, t: State, more: set<string>, u: State)
    requires Grown(s, keys, t) && Grown(t, more, u)
    ensures Grown(s, keys + more, u)
  {}

  lemma FileGrows(s: State, f: NewFile)
    requires f.id !in s.bitstreams && f.item in s.institutionOf && TargetOf(s, f) !in s.store
    requires forall b :: b in s.bitstreams ==> KeyOf(s.bitstreams[b]) != TargetOf(s, f)
    ensures Grown(s, {TargetOf(s, f)}, WithFile(s, f.id, f.item, f.filename, f.data))
  {}

  lemma OneGrows(s: State, f: NewFile)
    requires Good(s)
    ensures Good(ImportOne(s, f).state)
    ensures Grown(s, if Adds(s, f) then {TargetOf(s, f)} else {}, ImportOne(s, f).state)
  {
    if Adds(s, f) {
      ImportAddsFile(s, f.id, f.item, f.filename, f.data);
      FileGrows(s, f);
    }
  }

  lemma {:induction false} AllGrow(s: State, files: seq<NewFile>)
    requires Good(s)
    ensures Good(ImportAll(s, files).state) && Grown(s, AddedKeys(s, files), ImportAll(s, files).state)
    decreases files
  {
    if files != [] {
      var r := ImportOne(s, files[0]);
      OneGrows(s, files[0]);
      if r.ok {
        AllGrow(r.state, files[1..]);
        GrownTwice(s, if Adds(s, files[0]) then {TargetOf(s, files[0])} else {}, r.state,
                   AddedKeys(r.state, files[1..]), ImportAll(r.state, files[1..]).state);
      }
    }
  }

  /** The rows are taken back, and the objects are not. */
  lemma TakenBack(s: State, keys: set<string>, t: State)
    requires Good(s) && Grown(s, keys, t)
    ensures Grown(s, keys, RolledBack(s, t)) && (Good(RolledBack(s, t)) <==> keys == {})
  {
    if keys == {} {
      assert t.store == s.store;
    } else {
      var k :| k in keys;
      ObjectStranded(RolledBack(s, t), k);
    }
  }

  /**
    An import keeps the invariant exactly when it goes through or has added no
    file. When it fails all rows are as before, and the objects it has put, at
    keys that were free and are nobody's, are left.
   */
  lemma BatchKeepsGoodIff(s: State, files: seq<NewFile>, completes: bool)
    requires Good(s)
    ensures var r := ImportBatch(s, files, completes);
            && (Good(r.state) <==> r.ok || AddedKeys(s, files) == {})
            && Grown(s, AddedKeys(s, files), r.state)
            && (!r.ok ==> r.state.bitstreams == s.bitstreams && r.state.content == s.content)
  {
    AllGrow(s, files);
    TakenBack(s, AddedKeys(s, files), ImportAll(s, files).state);
  }

  function Singles(files: seq<NewFile>): seq<Op> {
    seq(|files|, i requires 0 <= i < |files| =>
      Import(files[i].id, files[i].item, files[i].filename, files[i].data, true))
  }

  /** One that goes through is a run of imports of single files. */
  lemma {:induction false} BatchIsRun(s: State, files: seq<NewFile>)
    requires ImportAll(s, files).ok
    ensures ImportBatch(s, files, true).state == Run(s, Singles(files))
    decreases files
  {
    if files != [] {
      BatchIsRun(ImportOne(s, files[0]).state, files[1..]);
      assert Singles(files)[1..] == Singles(files[1..]);
    }
  }

  // ----- when new files do not show up in the list of the item's files -----

  predicate Listed(s: State, listed: set<int>, item: nat, filename: string) {
    exists b :: b in listed && b in s.bitstreams && s.bitstreams[b].item == item && s.bitstreams[b].filename == filename
  }

  /** Names are compared with those of the rows that were there when the list was loaded. */
  function AddUnlisted(s: State, listed: set<int>, f: NewFile): Outcome {
    if f.id in s.bitstreams || f.item !in s.institutionOf then Outcome(s, false)
    else if Listed(s, listed, f.item, f.filename) then Outcome(s, true)
    else Outcome(WithFile(s, f.id, f.item, f.filename, f.data), true)
  }

  function AddAllUnlisted(s: State, listed: set<int>, files: seq<NewFile>): Outcome
    decreases files
  {
    if files == [] then Outcome(s, true) else
    var r := AddUnlisted(s, listed, files[0]);
    if r.ok then AddAllUnlisted(r.state, listed, files[1..]) else r
  }

  predicate NamedAlike(f: NewFile, g: NewFile) {
    f.item == g.item && f.filename == g.filename
  }

  /** No name comes twice, unless the item has it already. */
  ghost predicate NamesOnce(s: State, listed: set<int>, files: seq<NewFile>) {
    forall i, j :: 0 <= i < j < |files| && NamedAlike(files[i], files[j]) ==>
      Listed(s, listed, files[i].item, files[i].filename)
  }

  /** The rows that are not in the list have names that none of the files has. */
  ghost predicate OthersFree(s: State, listed: set<int>, files: seq<NewFile>) {
    forall b, i :: b in s.bitstreams && b !in listed && 0 <= i < |files| ==>
      s.bitstreams[b].item != files[i].item || s.bitstreams[b].filename != files[i].filename
  }

  lemma SameWhenFree(s: State, listed: set<int>, files: seq<NewFile>)
    requires files != [] && OthersFree(s, listed, files)
    ensures AddUnlisted(s, listed, files[0]) == ImportOne(s, files[0])
  {
    var f := files[0];
    if NameTaken(s, f.id, f.item, f.filename) {
      var b :| b in s.bitstreams && b != f.id && s.bitstreams[b].item == f.item
               && s.bitstreams[b].filename == f.filename;
      assert b in listed;
    }
  }

  lemma StillFree(s: State, listed: set<int>, files: seq<NewFile>)
    requires files != [] && OthersFree(s, listed, files) && NamesOnce(s, listed, files)
    requires listed <= s.bitstreams.Keys && AddUnlisted(s, listed, files[0]).ok
    ensures var t := AddUnlisted(s, listed, files[0]).state;
            OthersFree(t, listed, files[1..]) && NamesOnce(t, listed, files[1..]) && listed <= t.bitstreams.Keys
  {
    var t, rest := AddUnlisted(s, listed, files[0]).state, files[1..];
    forall item, filename ensures Listed(t, listed, item, filename) <==> Listed(s, listed, item, filename) {}
    forall i | 0 <= i < |rest| ensures rest[i] == files[i + 1] {}
    if !Listed(s, listed, files[0].item, files[0].filename) {
      forall i | 0 <= i < |rest| ensures !NamedAlike(files[0], rest[i]) { assert rest[i] == files[i + 1]; }
    }
  }

  lemma {:induction false} UnlistedIsSame(s: State, listed: set<int>, files: seq<NewFile>)
    requires listed <= s.bitstreams.Keys && OthersFree(s, listed, files) && NamesOnce(s, listed, files)
    ensures AddAllUnlisted(s, listed, files) == ImportAll(s, files)
    decreases files
  {
    if files != [] {
      SameWhenFree(s, listed, files);
      if AddUnlisted(s, listed, files[0]).ok {
        StillFree(s, listed, files);
        UnlistedIsSame(ImportOne(s, files[0]).state, listed, files[1..]);
      }
    }
  }

  /** Rows stay, and a file whose name is not in the list has its row in the end. */
  lemma {:induction false} UnlistedRows(s: State, listed: set<int>, files: seq<NewFile>)
    requires listed <= s.bitstreams.Keys && AddAllUnlisted(s, listed, files).ok
    ensures var t := AddAllUnlisted(s, listed, files).state;
            && (forall b :: b in s.bitstreams ==> b in t.bitstreams && t.bitstreams[b] == s.bitstreams[b])
            && forall i :: 0 <= i < |files| && !Listed(s, listed, files[i].item, files[i].filename) ==>
                 HasRow(s, t, files[i])
    decreases files
  {
    if files != [] {
      var r := AddUnlisted(s, listed, files[0]);
      forall item, filename ensures Listed(r.state, listed, item, filename) <==> Listed(s, listed, item, filename) {}
      UnlistedRows(r.state, listed, files[1..]);
      forall i | 0 < i < |files| ensures files[i] == files[1..][i - 1] {}
    }
  }

  ghost predicate HasRow(s: State, t: State, f: NewFile) {
    f.id !in s.bitstreams && f.id in t.bitstreams
    && t.bitstreams[f.id].item == f.item && t.bitstreams[f.id].filename == f.filename
  }

  lemma {:induction false} TwiceNamed(s: State, listed: set<int>, files: seq<NewFile>, i: nat, j: nat)
    requires listed <= s.bitstreams.Keys && AddAllUnlisted(s, listed, files).ok && i < j < |files|
    requires NamedAlike(files[i], files[j]) && !Listed(s, listed, files[i].item, files[i].filename)
    ensures !Good(AddAllUnlisted(s, listed, files).state)
    decreases files
  {
    var r := AddUnlisted(s, listed, files[0]);
    var t := AddAllUnlisted(s, listed, files).state;
    forall item, filename ensures Listed(r.state, listed, item, filename) <==> Listed(s, listed, item, filename) {}
    assert files[1..][j - 1] == files[j];
    if i == 0 {
      UnlistedRows(r.state, listed, files[1..]);
      assert HasRow(r.state, t, files[j]);
      NamesClash(t, files[0].id, files[j].id);
    } else {
      assert files[1..][i - 1] == files[i];
      TwiceNamed(r.state, listed, files[1..], i - 1, j - 1);
    }
  }

  /**
    If new rows do not show up in the list, files that go through keep the
    invariant exactly when no name that the item lacks comes twice among them; and
    then it makes no difference.
   */
  lemma UnlistedKeepsGoodIff(s: State, files: seq<NewFile>)
    requires Good(s) && AddAllUnlisted(s, s.bitstreams.Keys, files).ok
    ensures Good(AddAllUnlisted(s, s.bitstreams.Keys, files).state) <==> NamesOnce(s, s.bitstreams.Keys, files)
    ensures NamesOnce(s, s.bitstreams.Keys, files) ==>
              AddAllUnlisted(s, s.bitstreams.Keys, files) == ImportAll(s, files)
  {
    var listed := s.bitstreams.Keys;
    if NamesOnce(s, listed, files) {
      UnlistedIsSame(s, listed, files);
      AllGrow(s, files);
    } else {
      var i, j :| 0 <= i < j < |files| && NamedAlike(files[i], files[j])
                  && !Listed(s, listed, files[i].item, files[i].filename);
      TwiceNamed(s, listed, files, i, j);
    }
  }
}
