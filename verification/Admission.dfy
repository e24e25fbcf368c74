/**
  Which registered elements the registry of an institution takes in: names and
  URIs are unique in it, and the scope note of a clone has to fit its column.
 */
module Admission {
  import opened Wrappers

  datatype Registered = Registered(name: string, uri: Option<string>, institution: int)

  type Registry = map<int, Registered>

  /** Neither of the two unique indexes tells these apart as two rows of one institution. */
  predicate Clash(x: Registered, y: Registered) {
    x.institution == y.institution && (x.name == y.name || (x.uri.Some? && x.uri == y.uri))
  }

  ghost predicate Unique(r: Registry) {
    forall a, b :: a in r && b in r && a != b ==> !Clash(r[a], r[b])
  }

  function NamesIn(r: Registry, institution: int): set<string> {
    set a | a in r && r[a].institution == institution :: r[a].name
  }

  function UrisIn(r: Registry, institution: int): set<string> {
    set a | a in r && r[a].institution == institution && r[a].uri.Some? :: r[a].uri.value
  }

  // ----- which elements go through -----

  const MAX_NOTE := 1024

  /** The scope note of a clone; when it is written the unit already belongs to the destination, which it names. */
  function ScopeNote(unit: string, institution: string, date: string): string {
    "Added during a migration of the unit \"" + unit + "\" from the institution " + institution + " on " + date + "."
  }

  /** With a date of ten characters, the note fits its column exactly when title and name leave room for 76. */
  lemma ScopeNoteFitsIff(unit: string, institution: string, date: string)
    requires |date| == 10
    ensures |ScopeNote(unit, institution, date)| <= 1024 <==> |unit| + |institution| <= 948
  {}

  lemma ScopeNoteReads()
    ensures ScopeNote("A", "B", "2024-01-31") ==
            "Added during a migration of the unit \"A\" from the institution B on 2024-01-31."
  {}

  /** The names and URIs of an institution, and the note that goes into a clone. */
  datatype Ledger = Ledger(names: set<string>, uris: set<string>, note: string)

  function LedgerOf(r: Registry, institution: int, note: string): Ledger {
    Ledger(NamesIn(r, institution), UrisIn(r, institution), note)
  }

  /** A known name needs no new row; a new row needs a new URI and a note that is not too long. */
  predicate Admits(l: Ledger, x: Registered) {
    x.name in l.names || (|l.note| <= MAX_NOTE && (x.uri.None? || x.uri.value !in l.uris))
  }

  /** In terms of the registry: the name is there, or the note fits and no row there has the URI. */
  lemma AdmitsIff(r: Registry, institution: int, note: string, x: Registered)
    ensures Admits(LedgerOf(r, institution, note), x) <==>
            || (exists a :: a in r && r[a].institution == institution && r[a].name == x.name)
            || (|note| <= 1024 && (x.uri.None? || forall a :: a in r && r[a].institution == institution ==>
                                                    r[a].uri != x.uri))
  {
    if a :| a in r && r[a].institution == institution && r[a].name == x.name {
      assert r[a].name in NamesIn(r, institution);
    }
    if x.uri.Some? {
      if a :| a in r && r[a].institution == institution && r[a].uri == x.uri {
        assert r[a].uri.value in UrisIn(r, institution);
      }
    }
  }

  function Entered(l: Ledger, x: Registered): Ledger {
    if x.name in l.names then l
    else l.(names := l.names + {x.name}, uris := if x.uri.Some? then l.uris + {x.uri.value} else l.uris)
  }

  /** The ledger once all have been entered. */
  function AllEntered(l: Ledger, xs: seq<Registered>): Ledger
    decreases xs
  {
    if xs == [] then l else AllEntered(Entered(l, xs[0]), xs[1..])
  }

  predicate AllAdmitted(l: Ledger, xs: seq<Registered>)
    decreases xs
  {
    xs == [] || (Admits(l, xs[0]) && AllAdmitted(Entered(l, xs[0]), xs[1..]))
  }

  /** The element is the first of the list with its name, and the name is missing. */
  predicate IsNew(l: Ledger, xs: seq<Registered>, i: nat)
    requires i < |xs|
  {
    xs[i].name !in l.names && forall j :: 0 <= j < i ==> xs[j].name != xs[i].name
  }

  predicate FreshUri(l: Ledger, xs: seq<Registered>, i: nat)
    requires i < |xs|
  {
    xs[i].uri.None?
    || (xs[i].uri.value !in l.uris && forall j :: 0 <= j < i && IsNew(l, xs, j) ==> xs[j].uri != xs[i].uri)
  }

  /** Every name that has to be entered comes with a URI used neither before the move nor by it, and the note fits. */
  ghost predicate Fits(l: Ledger, xs: seq<Registered>) {
    forall i :: 0 <= i < |xs| && IsNew(l, xs, i) ==> |l.note| <= MAX_NOTE && FreshUri(l, xs, i)
  }

  lemma FreshUriCons(l: Ledger, xs: seq<Registered>, i: nat)
    requires 0 < i < |xs|
    ensures FreshUri(Entered(l, xs[0]), xs[1..], i - 1) <==> FreshUri(l, xs, i)
  {}

  /** One after the other, the elements go through exactly when they fit. */
  lemma {:induction false} AdmittedIffFits(l: Ledger, xs: seq<Registered>)
    ensures AllAdmitted(l, xs) <==> Fits(l, xs)
    decreases xs
  {
    if xs != [] {
      AdmittedIffFits(Entered(l, xs[0]), xs[1..]);
      assert Admits(l, xs[0]) <==> (IsNew(l, xs, 0) ==> |l.note| <= MAX_NOTE && FreshUri(l, xs, 0));
      var l', ys := Entered(l, xs[0]), xs[1..];
      if Fits(l, xs) {
        forall i | 0 <= i < |ys| && IsNew(l', ys, i) ensures |l'.note| <= MAX_NOTE && FreshUri(l', ys, i) {
          FreshUriCons(l, xs, i + 1);
        }
      }
      if Admits(l, xs[0]) && Fits(l', ys) {
        forall i | 0 <= i < |xs| && IsNew(l, xs, i) ensures |l.note| <= MAX_NOTE && FreshUri(l, xs, i) {
          if i != 0 {
            FreshUriCons(l, xs, i);
          }
        }
      }
    }
  }

  /** All from one institution, as the items of a unit's subtree are, two that clash are the same row. */
  ghost predicate OneSource(xs: seq<Registered>) {
    forall i, j :: 0 <= i < |xs| && 0 <= j < |xs| && Clash(xs[i], xs[j]) ==> xs[i] == xs[j]
  }

  /** From one institution, the elements go through exactly when no missing name's URI is in use at the destination. */
  lemma OneSourceFitsIff(l: Ledger, xs: seq<Registered>, source: int)
    requires OneSource(xs) && forall i :: 0 <= i < |xs| ==> xs[i].institution == source
    ensures AllAdmitted(l, xs) <==> forall i :: 0 <= i < |xs| ==> Admits(l, xs[i])
  {
    AdmittedIffFits(l, xs);
    if Fits(l, xs) {
      forall i | 0 <= i < |xs| ensures Admits(l, xs[i]) {
        if xs[i].name !in l.names {
          var k := FirstNamed(l, xs, i);
          assert Clash(xs[k], xs[i]);
          assert FreshUri(l, xs, k);
        }
      }
    }
    if forall i :: 0 <= i < |xs| ==> Admits(l, xs[i]) {
      forall i | 0 <= i < |xs| && IsNew(l, xs, i) ensures |l.note| <= MAX_NOTE && FreshUri(l, xs, i) {
        assert Admits(l, xs[i]);
        forall j | 0 <= j < i && xs[i].uri.Some? ensures xs[j].uri != xs[i].uri {
          assert xs[j] != xs[i] && !Clash(xs[j], xs[i]);
        }
      }
    }
  }

  lemma {:induction false} FirstNamed(l: Ledger, xs: seq<Registered>, i: nat) returns (k: nat)
    requires i < |xs| && xs[i].name !in l.names
    ensures k <= i && xs[k].name == xs[i].name && IsNew(l, xs, k)
    decreases i
  {
    k := i;
    if !IsNew(l, xs, i) {
      var j :| 0 <= j < i && xs[j].name == xs[i].name;
      k := FirstNamed(l, xs, j);
    }
  }

  // ----- one after the other -----

  lemma {:induction false} AdmittedAppend(l: Ledger, xs: seq<Registered>, ys: seq<Registered>)
    ensures AllAdmitted(l, xs + ys) <==> AllAdmitted(l, xs) && AllAdmitted(AllEntered(l, xs), ys)
    ensures AllEntered(l, xs + ys) == AllEntered(AllEntered(l, xs), ys)
    decreases xs
  {
    if xs == [] {
      assert xs + ys == ys;
    } else {
      AdmittedAppend(Entered(l, xs[0]), xs[1..], ys);
      assert (xs + ys)[1..] == xs[1..] + ys;
    }
  }

  lemma ClashIsUri(r: Registry, clone: Registered)
    requires clone.name !in NamesIn(r, clone.institution)
    requires exists a :: a in r && Clash(r[a], clone)
    ensures clone.uri.Some? && clone.uri.value in UrisIn(r, clone.institution)
  {}

  lemma CloneEnters(r: Registry, id: int, clone: Registered, note: string)
    requires id !in r && Unique(r) && clone.name !in NamesIn(r, clone.institution)
    requires !exists a :: a in r && Clash(r[a], clone)
    ensures Unique(r[id := clone])
    ensures LedgerOf(r[id := clone], clone.institution, note) == Entered(LedgerOf(r, clone.institution, note), clone)
    ensures clone.uri.None? || clone.uri.value !in UrisIn(r, clone.institution)
  {
    var r', dest := r[id := clone], clone.institution;
    assert r'[id] == clone;
    assert forall x :: x in NamesIn(r, dest) ==> x in NamesIn(r', dest) by {
      forall x | x in NamesIn(r, dest) ensures x in NamesIn(r', dest) {
        var a :| a in r && r[a].institution == dest && r[a].name == x;
        assert r'[a] == r[a];
      }
    }
    assert forall x :: x in UrisIn(r, dest) ==> x in UrisIn(r', dest) by {
      forall x | x in UrisIn(r, dest) ensures x in UrisIn(r', dest) {
        var a :| a in r && r[a].institution == dest && r[a].uri == Some(x);
        assert r'[a] == r[a];
      }
    }
    assert NamesIn(r', dest) == NamesIn(r, dest) + {clone.name};
    assert UrisIn(r', dest) == UrisIn(r, dest) + (if clone.uri.Some? then {clone.uri.value} else {});
  }

  /** A title that is long, as titles may be, makes the note of every clone too long. */
  lemma LongTitleRefused(l: Ledger, unit: string, institution: string, date: string, x: Registered)
    requires |unit| >= 1000 && |date| == 10 && l.note == ScopeNote(unit, institution, date) && x.name !in l.names
    ensures !Admits(l, x)
  {
    ScopeNoteFitsIff(unit, institution, date);
  }
}
