/**
  What a move to another institution does to metadata: every ascribed element of
  the moved items is pointed to an element of the same name in the destination's
  registry. A missing name is entered as a clone of the old element, which the
  unique index on institution and URI, or the length of its scope note, can
  refuse. Saving an item deletes elements that equal an earlier one, and such an
  element can then not be saved.
 */
module Migration {
  import opened Admission
  import opened Sets
  import opened Wrappers

  datatype Ascribed = Ascribed(item: int, registered: int, text: string, uri: Option<string>)

  type Elements = map<int, Ascribed>

  ghost predicate NamesKnown(r: Registry, es: Elements) {
    forall e :: e in es ==> es[e].registered in r
  }

  // ----- what going through means -----

  /** The registered element of an ascribed one. */
  function RegisteredOf(r: Registry, es: Elements, e: int): Registered {
    if e in es && es[e].registered in r then r[es[e].registered] else Registered("", None, 0)
  }

  function Wanted(r: Registry, es: Elements, ids: seq<int>): seq<Registered> {
    seq(|ids|, i requires 0 <= i < |ids| => RegisteredOf(r, es, ids[i]))
  }

  ghost function NamesUsed(r: Registry, es: Elements, ids: seq<int>): set<string> {
    set i | 0 <= i < |ids| && ids[i] in es :: RegisteredOf(r, es, ids[i]).name
  }

  /** The element keeps its name and all else, and belongs to the destination. */
  ghost predicate Moved(was: Registered, row: Ascribed, r': Registry, e': Ascribed, dest: int) {
    e' == row.(registered := e'.registered) && e'.registered in r' && r'[e'.registered].name == was.name
    && r'[e'.registered].institution == dest
  }

  ghost predicate Extends(r: Registry, r': Registry) {
    forall a :: a in r ==> a in r' && r'[a] == r[a]
  }

  /** One element has been moved: the registry gained a clone if it lacked the name, and nothing else changed. */
  ghost predicate OneMoved(r: Registry, es: Elements, r': Registry, es': Elements, e: int, dest: int, note: string) {
    && e in es && es'.Keys == es.Keys && Extends(r, r')
    && (forall x :: x in es && x != e ==> es'[x] == es[x])
    && Moved(RegisteredOf(r, es, e), es[e], r', es'[e], dest)
    && LedgerOf(r', dest, note) == Entered(LedgerOf(r, dest, note), RegisteredOf(r, es, e))
    && (forall a :: a in r' && a !in r ==>
          r'[a] == RegisteredOf(r, es, e).(institution := dest) && r'[a].name !in NamesIn(r, dest))
  }

  ghost predicate IsClone(r: Registry, es: Elements, x: Registered, done: seq<int>, dest: int) {
    x.name !in NamesIn(r, dest) && exists e :: e in done && e in es && x == RegisteredOf(r, es, e).(institution := dest)
  }

  /** The elements `done` have been moved; the registry gained exactly the missing names, each as a clone. */
  ghost predicate AllMoved(r: Registry, es: Elements, r': Registry, es': Elements, done: seq<int>, dest: int) {
    && es'.Keys == es.Keys && Extends(r, r')
    && (forall e :: e in done ==> e in es && Moved(RegisteredOf(r, es, e), es[e], r', es'[e], dest))
    && (forall e :: e in es && e !in done ==> es'[e] == es[e])
    && NamesIn(r', dest) == NamesIn(r, dest) + NamesUsed(r, es, done)
    && (forall a :: a in r' && a !in r ==> IsClone(r, es, r'[a], done, dest))
  }

  /** One more element, or one that has been moved before, as happens to an item in two collections. */
  lemma MoveNext(r: Registry, es: Elements, r1: Registry, es1: Elements, r2: Registry, es2: Elements,
                 done: seq<int>, e: int, dest: int, note: string)
    requires NamesKnown(r, es) && AllMoved(r, es, r1, es1, done, dest)
    requires OneMoved(r1, es1, r2, es2, e, dest, note)
    ensures AllMoved(r, es, r2, es2, done + [e], dest)
  {
    assert forall x :: x in done + [e] <==> x in done || x == e;
    NamesNext(r, es, r1, r2, done, e, dest, note, RegisteredOf(r1, es1, e));
    ClonesNext(r, es, r1, es1, r2, es2, done, e, dest, note);
  }

  lemma NamesNext(r: Registry, es: Elements, r1: Registry, r2: Registry, done: seq<int>, e: int, dest: int,
                  note: string, x: Registered)
    requires e in es && x.name == RegisteredOf(r, es, e).name
    requires NamesIn(r1, dest) == NamesIn(r, dest) + NamesUsed(r, es, done)
    requires LedgerOf(r2, dest, note) == Entered(LedgerOf(r1, dest, note), x)
    ensures NamesIn(r2, dest) == NamesIn(r, dest) + NamesUsed(r, es, done + [e])
  {
    var now := done + [e];
    UsedStep(r, es, now, |done|);
    assert now[..|done|] == done && now[..|done| + 1] == now;
  }

  lemma ClonesNext(r: Registry, es: Elements, r1: Registry, es1: Elements, r2: Registry, es2: Elements,
                   done: seq<int>, e: int, dest: int, note: string)
    requires NamesKnown(r, es) && AllMoved(r, es, r1, es1, done, dest) && OneMoved(r1, es1, r2, es2, e, dest, note)
    ensures forall a :: a in r2 && a !in r ==> IsClone(r, es, r2[a], done + [e], dest)
  {}

  // ----- equal elements of one item -----

  /** An element, and whether its text and position pass their validations. */
  datatype ElementVisit = ElementVisit(id: int, saved: bool)

  /** The elements of an item, as they are loaded before it is saved. */
  datatype ItemElements = ItemElements(item: int, elements: seq<ElementVisit>)

  function Ids(v: seq<ElementVisit>): seq<int> {
    seq(|v|, i requires 0 <= i < |v| => v[i].id)
  }

  /** What makes two elements of an item duplicates. */
  datatype Value = Value(text: string, uri: Option<string>, registered: int)

  function ValueOf(a: Ascribed): Value { Value(a.text, a.uri, a.registered) }

  predicate SameElement(es: Elements, a: int, b: int) {
    a in es && b in es && ValueOf(es[a]) == ValueOf(es[b])
  }

  /** No element before it equals the element. */
  predicate IsFirst(es: Elements, ids: seq<int>, i: nat)
    requires i < |ids|
  {
    forall j :: 0 <= j < i ==> !SameElement(es, ids[j], ids[i])
  }

  predicate NoTwins(es: Elements, ids: seq<int>) {
    forall i :: 0 <= i < |ids| ==> IsFirst(es, ids, i)
  }

  /** Two elements are equal if text, URI and registered element are. */
  lemma NoTwinsIff(es: Elements, ids: seq<int>)
    requires forall i :: 0 <= i < |ids| ==> ids[i] in es
    ensures NoTwins(es, ids) <==>
            forall j, i :: 0 <= j < i < |ids| ==>
              var a, b := es[ids[j]], es[ids[i]]; a.text != b.text || a.uri != b.uri || a.registered != b.registered
  {
    forall j, i | 0 <= j < i < |ids|
      ensures SameElement(es, ids[j], ids[i]) <==>
              var a, b := es[ids[j]], es[ids[i]]; a.text == b.text && a.uri == b.uri && a.registered == b.registered
    {}
    if NoTwins(es, ids) {
      forall j, i | 0 <= j < i < |ids|
        ensures var a, b := es[ids[j]], es[ids[i]]; a.text != b.text || a.uri != b.uri || a.registered != b.registered
      {
        assert IsFirst(es, ids, i) && !SameElement(es, ids[j], ids[i]);
      }
    }
  }

  predicate AllSaved(v: seq<ElementVisit>) {
    forall i :: 0 <= i < |v| ==> v[i].saved
  }

  /** All elements of the item, once each. */
  ghost predicate Loads(es: Elements, v: ItemElements) {
    NoRepeats(Ids(v.elements)) && forall e :: e in Ids(v.elements) <==> e in es && es[e].item == v.item
  }

  /** The registered elements of one item belong to one institution, as every save of an element demands. */
  ghost predicate SameHome(r: Registry, es: Elements) {
    forall a, b :: a in es && b in es && es[a].item == es[b].item ==>
      RegisteredOf(r, es, a).institution == RegisteredOf(r, es, b).institution
  }

  /** What a move relies on: the two unique indexes, and the validations of ascribed elements. */
  ghost predicate Sound(r: Registry, es: Elements) {
    Unique(r) && NamesKnown(r, es) && SameHome(r, es)
  }

  /** An item's elements have been moved all together. */
  ghost predicate Whole(es: Elements, done: seq<int>) {
    forall a, b :: a in done && a in es && b in es && es[a].item == es[b].item ==> b in done
  }

  /** Moving all elements of an item makes no two of them equal, and keeps equal ones equal. */
  lemma TwinsStay(r: Registry, es: Elements, r1: Registry, es1: Elements, done: seq<int>, dest: int, a: int, b: int)
    requires Sound(r, es) && Unique(r1) && AllMoved(r, es, r1, es1, done, dest) && Whole(es, done)
    requires a in es && b in es && es[a].item == es[b].item
    ensures SameElement(es1, a, b) <==> SameElement(es, a, b)
  {
    if a in done {
      assert b in done;
      assert Moved(RegisteredOf(r, es, a), es[a], r1, es1[a], dest);
      assert Moved(RegisteredOf(r, es, b), es[b], r1, es1[b], dest);
      if RegisteredOf(r, es, a).name == RegisteredOf(r, es, b).name {
        assert Clash(r[es[a].registered], r[es[b].registered]);
        assert Clash(r1[es1[a].registered], r1[es1[b].registered]);
      }
    } else {
      assert b !in done;
    }
  }

  /** An item visited again is as much without equal elements as it was at first. */
  lemma NoTwinsStay(r: Registry, es: Elements, r1: Registry, es1: Elements, done: seq<int>, dest: int,
                    v: ItemElements)
    requires Sound(r, es) && Unique(r1) && AllMoved(r, es, r1, es1, done, dest) && Whole(es, done) && Loads(es, v)
    ensures NoTwins(es1, Ids(v.elements)) <==> NoTwins(es, Ids(v.elements))
  {
    var ids := Ids(v.elements);
    forall i, j | 0 <= j < i < |ids| ensures SameElement(es1, ids[j], ids[i]) <==> SameElement(es, ids[j], ids[i]) {
      assert ids[i] in ids && ids[j] in ids;
      TwinsStay(r, es, r1, es1, done, dest, ids[j], ids[i]);
    }
    forall i | 0 <= i < |ids| ensures IsFirst(es1, ids, i) <==> IsFirst(es, ids, i) {}
  }

  /** `migrate_ascribed_elements`: a bulk update, without validations or callbacks. */
  function Merged(es: Elements, from: int, to: int): Elements {
    map e | e in es :: if es[e].registered == from then es[e].(registered := to) else es[e]
  }

  /** Merging two registered elements of an institution can make two elements of an item equal. */
  lemma MergeMakesTwins(from: int, to: int, a: int, b: int, text: string)
    requires from != to && a != b
    ensures var es := map[a := Ascribed(1, from, text, None), b := Ascribed(1, to, text, None)];
            && NoTwins(es, [a, b]) && !NoTwins(Merged(es, from, to), [a, b])
            && Merged(es, from, to) == map[a := Ascribed(1, to, text, None), b := Ascribed(1, to, text, None)]
  {
    var es := map[a := Ascribed(1, from, text, None), b := Ascribed(1, to, text, None)];
    assert !SameElement(es, [a, b][0], [a, b][1]);
    assert !IsFirst(Merged(es, from, to), [a, b], 1) by {
      assert SameElement(Merged(es, from, to), [a, b][0], [a, b][1]);
    }
  }

  // ----- the loop -----

  /** What the elements of one item's visit need to go through. */
  ghost predicate VisitPasses(l: Ledger, r: Registry, es: Elements, v: ItemElements) {
    AllAdmitted(l, Wanted(r, es, Ids(v.elements))) && NoTwins(es, Ids(v.elements)) && AllSaved(v.elements)
  }

  function AllIds(visits: seq<ItemElements>): seq<int> {
    if visits == [] then [] else Ids(visits[0].elements) + AllIds(visits[1..])
  }

  /** The elements that the save of their item deletes: those that equal an earlier one. */
  method PruneDuplicates(es: Elements, ids: seq<int>) returns (dropped: set<int>)
    requires NoRepeats(ids) && forall i :: 0 <= i < |ids| ==> ids[i] in es
    ensures forall i :: 0 <= i < |ids| ==>
              (ids[i] in dropped <==>
               exists j :: 0 <= j < i && es[ids[j]].text == es[ids[i]].text && es[ids[j]].uri == es[ids[i]].uri
                           && es[ids[j]].registered == es[ids[i]].registered)
    ensures forall i :: 0 <= i < |ids| ==> (ids[i] in dropped <==> !IsFirst(es, ids, i))
  {
    var unique: seq<int> := [];
    dropped := {};
    for i := 0 to |ids|
      invariant forall e :: e in unique ==> e in es
      invariant ValuesOf(es, unique) == ValuesOf(es, ids[..i])
      invariant DroppedSoFar(es, ids, i, dropped)
    {
      SeenIffNotFirst(es, ids, i, unique);
      DroppedNext(es, ids, i, dropped);
      if exists e :: e in unique && SameElement(es, e, ids[i]) {
        dropped := dropped + {ids[i]};
      } else {
        unique := unique + [ids[i]];
      }
    }
    forall i | 0 <= i < |ids|
      ensures ids[i] in dropped <==>
              exists j :: 0 <= j < i && es[ids[j]].text == es[ids[i]].text && es[ids[j]].uri == es[ids[i]].uri
                          && es[ids[j]].registered == es[ids[i]].registered
    {
      IsFirstIff(es, ids, i);
    }
  }

  lemma IsFirstIff(es: Elements, ids: seq<int>, i: nat)
    requires i < |ids| && forall j :: 0 <= j < |ids| ==> ids[j] in es
    ensures !IsFirst(es, ids, i) <==>
            exists j :: 0 <= j < i && es[ids[j]].text == es[ids[i]].text && es[ids[j]].uri == es[ids[i]].uri
                        && es[ids[j]].registered == es[ids[i]].registered
  {
    if j :| 0 <= j < i && es[ids[j]].text == es[ids[i]].text && es[ids[j]].uri == es[ids[i]].uri
            && es[ids[j]].registered == es[ids[i]].registered {
      assert SameElement(es, ids[j], ids[i]);
    }
  }

  class MetadataTables {
    var registry: Registry
    var elements: Elements
    var nextId: int

    ghost predicate Valid()
      reads this
    {
      Unique(registry) && NamesKnown(registry, elements) && forall a :: a in registry ==> a < nextId
    }

    /** The tables are what the move has made of `r` and `es` once the elements `done` have been moved. */
    ghost predicate HaveMoved(r: Registry, es: Elements, done: seq<int>, dest: int)
      reads this
    {
      Valid() && Sound(r, es) && AllMoved(r, es, registry, elements, done, dest)
    }

    /** Points one element to the destination's element of the same name, cloned if it is not known. */
    method MoveElement(e: int, dest: int, note: string, known: set<string>) returns (ok: bool, known': set<string>)
      requires Valid() && e in elements && known == NamesIn(registry, dest)
      modifies this
      ensures Valid()
      ensures ok <==> Admits(LedgerOf(old(registry), dest, note), RegisteredOf(old(registry), old(elements), e))
      ensures ok ==> OneMoved(old(registry), old(elements), registry, elements, e, dest, note)
      ensures ok ==>
                var was := old(registry[elements[e].registered]);
                && elements.Keys == old(elements).Keys && elements - {e} == old(elements) - {e}
                && elements[e] == old(elements[e]).(registered := elements[e].registered)
                && elements[e].registered in registry && registry[elements[e].registered].name == was.name
                && registry[elements[e].registered].institution == dest
                && registry == (if exists a :: a in old(registry) && old(registry)[a].institution == dest
                                               && old(registry)[a].name == was.name
                                then old(registry) else old(registry)[old(nextId) := was.(institution := dest)])
      ensures !ok ==> unchanged(this)
      ensures known' == NamesIn(registry, dest)
    {
      var was := RegisteredOf(registry, elements, e);
      known' := known;
      if was.name !in known {
        var clone := was.(institution := dest);
        if |note| > MAX_NOTE { return false, known; }
        if exists a :: a in registry && Clash(registry[a], clone) {
          ClashIsUri(registry, clone);
          return false, known;
        }
        CloneEnters(registry, nextId, clone, note);
        registry := registry[nextId := clone];
        nextId := nextId + 1;
        known' := known + {was.name};
      }
      assert was.name in NamesIn(registry, dest);
      var target :| target in registry && registry[target].name == was.name && registry[target].institution == dest;
      elements := elements[e := elements[e].(registered := target)];
      ok := true;
    }

    /** The same for an element that comes after others, seen from the tables as they were before all of them. */
    method MoveAfter(ghost r: Registry, ghost es: Elements, ghost done: seq<int>, e: int, dest: int, note: string,
                     known: set<string>)
      returns (ok: bool, known': set<string>)
      requires HaveMoved(r, es, done, dest) && e in es && known == NamesIn(registry, dest)
      modifies this
      ensures known' == NamesIn(registry, dest)
      ensures ok <==> Admits(LedgerOf(old(registry), dest, note), RegisteredOf(r, es, e))
      ensures ok ==> HaveMoved(r, es, done + [e], dest)
      ensures ok ==> LedgerOf(registry, dest, note) ==
                     Entered(LedgerOf(old(registry), dest, note), RegisteredOf(r, es, e))
      ensures !ok ==> unchanged(this)
    {
      ghost var r1, es1 := registry, elements;
      ok, known' := MoveElement(e, dest, note, known);
      if ok { MoveNext(r, es, r1, es1, registry, elements, done, e, dest, note); }
    }

    /** Moves the elements of one item, all of them or none that counts: what fails is rolled back by the caller. */
    method MoveItem(v: ItemElements, dest: int, note: string, ghost r: Registry, ghost es: Elements,
                    ghost done: seq<int>)
      returns (ok: bool)
      requires HaveMoved(r, es, done, dest) && Whole(es, done) && Loads(es, v)
      modifies this
      ensures ok <==> VisitPasses(LedgerOf(old(registry), dest, note), r, es, v)
      ensures ok ==> HaveMoved(r, es, done + Ids(v.elements), dest) && Whole(es, done + Ids(v.elements))
      ensures ok ==> LedgerOf(registry, dest, note) ==
                     AllEntered(LedgerOf(old(registry), dest, note), Wanted(r, es, Ids(v.elements)))
    {
      var ids := Ids(v.elements);
      assert forall i :: 0 <= i < |ids| ==> ids[i] in ids && v.elements[i].id == ids[i];
      NoTwinsStay(r, es, registry, elements, done, dest, v);
      var dropped := PruneDuplicates(elements, ids);
      ok := MoveEach(v.elements, dropped, dest, note, r, es, done);
      WholeItem(es, done, v);
    }

    /** The loop over an item's elements, up to the first that cannot be cloned or saved. */
    method MoveEach(v: seq<ElementVisit>, dropped: set<int>, dest: int, note: string, ghost r: Registry,
                    ghost es: Elements, ghost done: seq<int>)
      returns (ok: bool)
      requires HaveMoved(r, es, done, dest) && forall i :: 0 <= i < |v| ==> v[i].id in es
      modifies this
      ensures ok <==> AllAdmitted(LedgerOf(old(registry), dest, note), Wanted(r, es, Ids(v)))
                      && AllKept(v, dropped, |v|)
      ensures ok ==> HaveMoved(r, es, done + Ids(v), dest)
      ensures ok ==> LedgerOf(registry, dest, note) ==
                     AllEntered(LedgerOf(old(registry), dest, note), Wanted(r, es, Ids(v)))
    {
      var known := NamesIn(registry, dest);
      ghost var l := LedgerOf(registry, dest, note);
      FirstOfAll(l, r, es, v, done);
      for i := 0 to |v|
        invariant HaveMoved(r, es, done + Ids(v)[..i], dest) && known == NamesIn(registry, dest)
        invariant Remaining(l, LedgerOf(registry, dest, note), Wanted(r, es, Ids(v)), i)
        invariant AllKept(v, dropped, i)
      {
        ok, known := MoveNth(v, i, dropped, dest, note, known, r, es, done, l);
        if !ok { return; }
      }
      assert Ids(v)[..|v|] == Ids(v);
      ok := true;
    }

    method MoveNth(v: seq<ElementVisit>, i: nat, dropped: set<int>, dest: int, note: string, known: set<string>,
                   ghost r: Registry, ghost es: Elements, ghost done: seq<int>, ghost l: Ledger)
      returns (ok: bool, known': set<string>)
      requires i < |v| && v[i].id in es && known == NamesIn(registry, dest)
      requires HaveMoved(r, es, done + Ids(v)[..i], dest) && AllKept(v, dropped, i)
      requires Remaining(l, LedgerOf(registry, dest, note), Wanted(r, es, Ids(v)), i)
      modifies this
      ensures known' == NamesIn(registry, dest)
      ensures ok ==> HaveMoved(r, es, done + Ids(v)[..i + 1], dest) && AllKept(v, dropped, i + 1)
      ensures ok ==> Remaining(l, LedgerOf(registry, dest, note), Wanted(r, es, Ids(v)), i + 1)
      ensures !ok ==> !AllAdmitted(l, Wanted(r, es, Ids(v))) || !AllKept(v, dropped, |v|)
    {
      IdsNext(v, i, done);
      RemainingNext(l, LedgerOf(registry, dest, note), Wanted(r, es, Ids(v)), i);
      ok, known' := MoveAfter(r, es, done + Ids(v)[..i], v[i].id, dest, note, known);
      if ok { ok := v[i].saved && v[i].id !in dropped; }
    }

    /** Moves the elements of the items visited, an item possibly more than once, or rolls everything back. */
    method MoveElements(visits: seq<ItemElements>, dest: int, note: string) returns (ok: bool)
      requires Valid() && SameHome(registry, elements) && forall i :: 0 <= i < |visits| ==> Loads(elements, visits[i])
      modifies this
      ensures Valid()
      ensures ok <==>
              && AllAdmitted(LedgerOf(old(registry), dest, note), Wanted(old(registry), old(elements), AllIds(visits)))
              && forall i :: 0 <= i < |visits| ==>
                   NoTwins(old(elements), Ids(visits[i].elements)) && AllSaved(visits[i].elements)
      ensures ok ==> AllMoved(old(registry), old(elements), registry, elements, AllIds(visits), dest)
      ensures !ok ==> registry == old(registry) && elements == old(elements)
    {
      var registryBefore, elementsBefore, nextIdBefore := registry, elements, nextId;
      ghost var r, es := registry, elements;
      ok := MoveItems(visits, dest, note, r, es);
      if !ok { registry, elements, nextId := registryBefore, elementsBefore, nextIdBefore; }
    }

    method MoveItems(visits: seq<ItemElements>, dest: int, note: string, ghost r: Registry, ghost es: Elements)
      returns (ok: bool)
      requires HaveMoved(r, es, [], dest) && forall i :: 0 <= i < |visits| ==> Loads(es, visits[i])
      modifies this
      ensures ok <==> ItemsPass(LedgerOf(old(registry), dest, note), r, es, visits)
      ensures ok ==> HaveMoved(r, es, AllIds(visits), dest)
    {
      ghost var l := LedgerOf(registry, dest, note);
      for i := 0 to |visits|
        invariant HaveMoved(r, es, AllIds(visits[..i]), dest) && Whole(es, AllIds(visits[..i]))
        invariant ItemsGoThrough(l, LedgerOf(registry, dest, note), r, es, visits[..i])
      {
        ok := MoveNthItem(visits, i, dest, note, r, es, l);
        if !ok { return; }
      }
      assert visits[..|visits|] == visits;
      ok := true;
    }

    method MoveNthItem(visits: seq<ItemElements>, i: nat, dest: int, note: string, ghost r: Registry,
                       ghost es: Elements, ghost l: Ledger)
      returns (ok: bool)
      requires i < |visits| && Loads(es, visits[i])
      requires HaveMoved(r, es, AllIds(visits[..i]), dest) && Whole(es, AllIds(visits[..i]))
      requires ItemsGoThrough(l, LedgerOf(registry, dest, note), r, es, visits[..i])
      modifies this
      ensures ok ==> HaveMoved(r, es, AllIds(visits[..i + 1]), dest) && Whole(es, AllIds(visits[..i + 1]))
      ensures ok ==> ItemsGoThrough(l, LedgerOf(registry, dest, note), r, es, visits[..i + 1])
      ensures !ok ==> !ItemsPass(l, r, es, visits)
    {
      VisitsNext(l, LedgerOf(registry, dest, note), r, es, visits, i);
      ok := MoveItem(visits[i], dest, note, r, es, AllIds(visits[..i]));
    }
  }

  ghost predicate ItemsPass(l: Ledger, r: Registry, es: Elements, visits: seq<ItemElements>) {
    && AllAdmitted(l, Wanted(r, es, AllIds(visits)))
    && forall i :: 0 <= i < |visits| ==> NoTwins(es, Ids(visits[i].elements)) && AllSaved(visits[i].elements)
  }

  /** The visits go through, from one ledger to another. */
  ghost predicate ItemsGoThrough(l: Ledger, l': Ledger, r: Registry, es: Elements, visits: seq<ItemElements>) {
    ItemsPass(l, r, es, visits) && l' == AllEntered(l, Wanted(r, es, AllIds(visits)))
  }

  lemma VisitsNext(l: Ledger, now: Ledger, r: Registry, es: Elements, visits: seq<ItemElements>, i: nat)
    requires i < |visits| && ItemsGoThrough(l, now, r, es, visits[..i])
    ensures AllIds(visits[..i + 1]) == AllIds(visits[..i]) + Ids(visits[i].elements)
    ensures VisitPasses(now, r, es, visits[i]) ==>
              ItemsGoThrough(l, AllEntered(now, Wanted(r, es, Ids(visits[i].elements))), r, es, visits[..i + 1])
    ensures !VisitPasses(now, r, es, visits[i]) ==>
              !ItemsPass(l, r, es, visits)
  {
    AllIdsNext(visits, i);
    AdmittedThrough(l, r, es, AllIds(visits[..i]), Ids(visits[i].elements));
    AdmittedPrefix(l, r, es, visits, i + 1);
  }

  predicate AllKept(v: seq<ElementVisit>, dropped: set<int>, n: nat)
    requires n <= |v|
  {
    forall i :: 0 <= i < n ==> v[i].saved && v[i].id !in dropped
  }

  lemma IdsNext(v: seq<ElementVisit>, i: nat, done: seq<int>)
    requires i < |v|
    ensures done + Ids(v)[..i + 1] == done + Ids(v)[..i] + [v[i].id]
  {}

  lemma FirstOfAll(l: Ledger, r: Registry, es: Elements, v: seq<ElementVisit>, done: seq<int>)
    ensures done + Ids(v)[..0] == done
    ensures Remaining(l, l, Wanted(r, es, Ids(v)), 0)
  {
    assert Wanted(r, es, Ids(v))[0..] == Wanted(r, es, Ids(v));
  }

  ghost function ValuesOf(es: Elements, ids: seq<int>): set<Value> {
    set e | e in ids && e in es :: ValueOf(es[e])
  }

  lemma ValuesNext(es: Elements, ids: seq<int>, e: int)
    requires e in es
    ensures ValuesOf(es, ids + [e]) == ValuesOf(es, ids) + {ValueOf(es[e])}
    ensures ValueOf(es[e]) in ValuesOf(es, ids) <==> exists x :: x in ids && SameElement(es, x, e)
  {
    assert forall x :: x in ids + [e] <==> x in ids || x == e;
  }

  /** An equal element among the unique ones is an equal element before this one. */
  lemma SeenIffNotFirst(es: Elements, ids: seq<int>, i: nat, unique: seq<int>)
    requires i < |ids| && ids[i] in es && ValuesOf(es, unique) == ValuesOf(es, ids[..i])
    ensures (exists e :: e in unique && SameElement(es, e, ids[i])) <==> !IsFirst(es, ids, i)
    ensures !IsFirst(es, ids, i) ==> ValuesOf(es, ids[..i + 1]) == ValuesOf(es, unique)
    ensures ValuesOf(es, ids[..i + 1]) == ValuesOf(es, unique + [ids[i]])
  {
    ValuesNext(es, ids[..i], ids[i]);
    ValuesNext(es, unique, ids[i]);
    FirstIffNewValue(es, ids, i);
    assert ids[..i + 1] == ids[..i] + [ids[i]];
  }

  predicate DroppedSoFar(es: Elements, ids: seq<int>, i: nat, dropped: set<int>)
    requires i <= |ids|
  {
    && (forall j :: 0 <= j < i ==> (ids[j] in dropped <==> !IsFirst(es, ids, j)))
    && (forall j :: i <= j < |ids| ==> ids[j] !in dropped)
  }

  lemma DroppedNext(es: Elements, ids: seq<int>, i: nat, dropped: set<int>)
    requires i < |ids| && NoRepeats(ids) && DroppedSoFar(es, ids, i, dropped)
    ensures DroppedSoFar(es, ids, i + 1, if IsFirst(es, ids, i) then dropped else dropped + {ids[i]})
  {
    forall j | 0 <= j < |ids| && j != i ensures ids[j] != ids[i] {}
  }

  lemma FirstIffNewValue(es: Elements, ids: seq<int>, i: nat)
    requires i < |ids| && ids[i] in es
    ensures IsFirst(es, ids, i) <==> ValueOf(es[ids[i]]) !in ValuesOf(es, ids[..i])
  {
    forall j | 0 <= j < i ensures ids[j] in ids[..i] { assert ids[..i][j] == ids[j]; }
  }

  lemma WholeItem(es: Elements, done: seq<int>, v: ItemElements)
    requires Whole(es, done) && Loads(es, v)
    ensures Whole(es, done + Ids(v.elements))
  {}

  /** What is left of the list decides, and leads to the same ledger. */
  ghost predicate Remaining(l: Ledger, now: Ledger, xs: seq<Registered>, i: nat)
    requires i <= |xs|
  {
    && (AllAdmitted(now, xs[i..]) <==> AllAdmitted(l, xs))
    && AllEntered(now, xs[i..]) == AllEntered(l, xs)
  }

  lemma RemainingNext(l: Ledger, now: Ledger, xs: seq<Registered>, i: nat)
    requires i < |xs| && Remaining(l, now, xs, i)
    ensures !Admits(now, xs[i]) ==> !AllAdmitted(l, xs)
    ensures Admits(now, xs[i]) ==> Remaining(l, Entered(now, xs[i]), xs, i + 1)
  {
    assert xs[i..][0] == xs[i] && xs[i..][1..] == xs[i + 1..];
  }

  lemma {:induction false} AllIdsAppend(visits: seq<ItemElements>, more: seq<ItemElements>)
    ensures AllIds(visits + more) == AllIds(visits) + AllIds(more)
  {
    if visits == [] {
      assert visits + more == more;
    } else {
      AllIdsAppend(visits[1..], more);
      assert (visits + more)[1..] == visits[1..] + more;
      Associative(Ids(visits[0].elements), AllIds(visits[1..]), AllIds(more));
    }
  }

  lemma Associative<T>(a: seq<T>, b: seq<T>, c: seq<T>)
    ensures (a + b) + c == a + (b + c)
  {}

  lemma AllIdsNext(visits: seq<ItemElements>, i: nat)
    requires i < |visits|
    ensures AllIds(visits[..i + 1]) == AllIds(visits[..i]) + Ids(visits[i].elements)
  {
    assert visits[..i + 1] == visits[..i] + [visits[i]];
    AllIdsAppend(visits[..i], [visits[i]]);
    assert [visits[i]][1..] == [];
  }

  lemma AdmittedThrough(l: Ledger, r: Registry, es: Elements, ids: seq<int>, more: seq<int>)
    ensures AllAdmitted(l, Wanted(r, es, ids + more)) <==>
            AllAdmitted(l, Wanted(r, es, ids)) && AllAdmitted(AllEntered(l, Wanted(r, es, ids)), Wanted(r, es, more))
    ensures AllEntered(l, Wanted(r, es, ids + more)) ==
            AllEntered(AllEntered(l, Wanted(r, es, ids)), Wanted(r, es, more))
  {
    AdmittedAppend(l, Wanted(r, es, ids), Wanted(r, es, more));
    assert Wanted(r, es, ids + more) == Wanted(r, es, ids) + Wanted(r, es, more);
  }

  lemma AdmittedPrefix(l: Ledger, r: Registry, es: Elements, visits: seq<ItemElements>, n: nat)
    requires n <= |visits|
    ensures AllAdmitted(l, Wanted(r, es, AllIds(visits))) ==> AllAdmitted(l, Wanted(r, es, AllIds(visits[..n])))
  {
    assert visits == visits[..n] + visits[n..];
    AllIdsAppend(visits[..n], visits[n..]);
    AdmittedThrough(l, r, es, AllIds(visits[..n]), AllIds(visits[n..]));
  }

  lemma UsedStep(r: Registry, es: Elements, ids: seq<int>, i: nat)
    requires i < |ids| && ids[i] in es
    ensures NamesUsed(r, es, ids[..i + 1]) == NamesUsed(r, es, ids[..i]) + {RegisteredOf(r, es, ids[i]).name}
  {}

  // ----- what is refused -----

  /** The destination lacks the name but has the URI under another one. */
  function ClashingRegistry(uri: string): Registry {
    map[1 := Registered("foo", Some(uri), 10), 2 := Registered("bar", Some(uri), 20)]
  }

  function ClashingElements(): Elements {
    map[7 := Ascribed(2, 1, "text", None)]
  }

  /** The move is refused. */
  lemma ClashingUriRefused(uri: string, note: string)
    ensures var r, es := ClashingRegistry(uri), ClashingElements();
            && Sound(r, es) && NoTwins(es, [7])
            && !AllAdmitted(LedgerOf(r, 20, note), Wanted(r, es, [7]))
  {
    var r, es := ClashingRegistry(uri), ClashingElements();
    assert r[2].uri.value in UrisIn(r, 20);
    assert "foo"[0] != "bar"[0];
    assert Wanted(r, es, [7])[0] == r[1];
  }

  /** Two equal elements of one item, whose name the destination has. */
  function EqualElements(): Elements {
    map[7 := Ascribed(2, 1, "text", None), 8 := Ascribed(2, 1, "text", None)]
  }

  function PlainRegistry(): Registry {
    map[1 := Registered("foo", None, 10), 2 := Registered("foo", None, 20)]
  }

  /** Nothing is wrong with their names, but the second of them is deleted before it is saved. */
  lemma EqualElementsRefused(note: string)
    ensures var r, es := PlainRegistry(), EqualElements();
            && Sound(r, es) && AllAdmitted(LedgerOf(r, 20, note), Wanted(r, es, [7, 8]))
            && !NoTwins(es, [7, 8])
  {
    var r, es := PlainRegistry(), EqualElements();
    assert r[2].name in NamesIn(r, 20);
    var xs := Wanted(r, es, [7, 8]);
    assert xs == [r[1], r[1]] && xs[1..] == [r[1]] && xs[1..][1..] == [];
    assert !IsFirst(es, [7, 8], 1) by { assert SameElement(es, [7, 8][0], [7, 8][1]); }
  }
}
