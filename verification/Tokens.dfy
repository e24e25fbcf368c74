/** OAI-PMH resumption tokens: building, scrambling and parsing them. */
module Tokens {
  import opened Text
  import opened Wrappers

  // ----- ROT-18 -----

  function RotChar(c: char): char {
    if 'A' <= c <= 'M' || 'a' <= c <= 'm' then (c as int + 13) as char
    else if 'N' <= c <= 'Z' || 'n' <= c <= 'z' then (c as int - 13) as char
    else if '0' <= c <= '4' then (c as int + 5) as char
    else if '5' <= c <= '9' then (c as int - 5) as char
    else c
  }

  function Rot18(s: string): string {
    seq(|s|, i requires 0 <= i < |s| => RotChar(s[i]))
  }

  /** Letters move by 13 in their case and digits by 5; nothing else moves. */
  lemma Rot18Is(s: string)
    ensures |Rot18(s)| == |s|
    ensures forall i :: 0 <= i < |s| ==>
              var c, r := s[i] as int, Rot18(s)[i] as int;
              if 'A' <= s[i] <= 'Z' then r == 65 + (c - 65 + 13) % 26
              else if 'a' <= s[i] <= 'z' then r == 97 + (c - 97 + 13) % 26
              else if '0' <= s[i] <= '9' then r == 48 + (c - 48 + 5) % 10
              else r == c
  {}

  lemma Rot18Involution(s: string)
    ensures Rot18(Rot18(s)) == s
  {}

  // ----- building -----

  type Pair = (string, string)

  function Component(p: Pair): string { p.0 + ":" + p.1 }

  function Components(ps: seq<Pair>): seq<string> {
    seq(|ps|, i requires 0 <= i < |ps| => Component(ps[i]))
  }

  function Encode(ps: seq<Pair>): string {
    Rot18(Join(Components(ps), '|'))
  }

  /** What a ListRecords or ListIdentifiers request carries from page to page. */
  datatype Values = Values(set_: Option<string>, from: Option<string>, until: Option<string>,
                           lsv: Option<string>, metadataPrefix: Option<string>)

  function Shown(k: string, v: Option<string>): seq<Pair> {
    if Present(v) then [(k, v.value)] else []
  }

  function Pairs(v: Values): seq<Pair> {
    Shown("set", v.set_) + Shown("from", v.from) + Shown("until", v.until) + Shown("lsv", v.lsv)
    + Shown("metadataPrefix", v.metadataPrefix)
  }

  function NewRecordsToken(v: Values): string { Encode(Pairs(v)) }

  function NewSetsToken(start: nat): string { Encode([("start", Decimal(start))]) }

  /** What a token says when all its values are given. */
  lemma TokenText(v: Values)
    requires Present(v.set_) && Present(v.from) && Present(v.until) && Present(v.lsv) && Present(v.metadataPrefix)
    ensures Rot18(NewRecordsToken(v)) ==
            Join(["set:" + v.set_.value, "from:" + v.from.value, "until:" + v.until.value, "lsv:" + v.lsv.value,
                  "metadataPrefix:" + v.metadataPrefix.value], '|')
  {
    var cs := Components(Pairs(v));
    Rot18Involution(Join(cs, '|'));
    assert "set:" == "set" + ":" && "from:" == "from" + ":" && "until:" == "until" + ":" && "lsv:" == "lsv" + ":";
    assert "metadataPrefix:" == "metadataPrefix" + ":";
    assert cs == ["set:" + v.set_.value, "from:" + v.from.value, "until:" + v.until.value, "lsv:" + v.lsv.value,
                  "metadataPrefix:" + v.metadataPrefix.value];
  }

  lemma SetsTokenText(start: nat)
    ensures Rot18(NewSetsToken(start)) == "start:" + Decimal(start)
  {
    var cs := Components([("start", Decimal(start))]);
    Rot18Involution(Join(cs, '|'));
    assert "start:" == "start" + ":";
    assert cs == ["start:" + Decimal(start)];
  }

  // ----- parsing -----

  /** The value of one component, if it is for this key. */
  function ComponentValue(component: string, key: string): Option<string> {
    var kv := Split(component, ':');
    if |kv| >= 2 && kv[0] == key then Some(Join(kv[1..], ':')) else None
  }

  function FirstValue(components: seq<string>, key: string): Option<string> {
    if components == [] then None
    else if ComponentValue(components[0], key).Some? then ComponentValue(components[0], key)
    else FirstValue(components[1..], key)
  }

  function Parse(token: Option<string>, key: string): Option<string> {
    if Present(token) then FirstValue(Split(Rot18(token.value), '|'), key) else None
  }

  /** The scan with an early return that computes it. */
  method ParseResumptionToken(token: Option<string>, key: string) returns (r: Option<string>)
    ensures r == Parse(token, key)
  {
    if Present(token) {
      var components := Split(Rot18(token.value), '|');
      for i := 0 to |components|
        invariant FirstValue(components, key) == FirstValue(components[i..], key)
      {
        var kv := Split(components[i], ':');
        if |kv| >= 2 && kv[0] == key { return Some(Join(kv[1..], ':')); }
      }
    }
    r := None;
  }

  // ----- round trip -----

  /** No component separator, and not ending in the key-value separator. */
  predicate Clean(s: string) {
    '|' !in s && (s == "" || s[|s| - 1] != ':')
  }

  predicate GoodKey(k: string) { k != "" && ':' !in k && '|' !in k }

  ghost function Lookup(ps: seq<Pair>, key: string): Option<string> {
    if ps == [] then None else if ps[0].0 == key then Some(ps[0].1) else Lookup(ps[1..], key)
  }

  lemma ComponentRoundTrip(p: Pair, key: string)
    requires GoodKey(p.0) && p.1 != "" && Clean(p.1)
    ensures ComponentValue(Component(p), key) == if p.0 == key then Some(p.1) else None
  {
    PiecesCut(p.0, p.1, ':');
    LastPiece(p.1, ':');
    JoinPieces(p.1, ':');
    assert ([p.0] + Pieces(p.1, ':'))[1..] == Pieces(p.1, ':');
  }

  /** Any component: nothing without a colon, nothing for another key, and colons at its end do not count. */
  lemma ComponentMeans(component: string, key: string, other: string, value: string)
    ensures ':' !in component ==> ComponentValue(component, key) == None
    ensures GoodKey(other) && other != key ==> ComponentValue(other + ":" + value, key) == None
    ensures GoodKey(key) && value != "" && Clean(value) ==> ComponentValue(key + ":" + value, key) == Some(value)
    ensures ComponentValue(component + ":", key) == ComponentValue(component, key)
  {
    if ':' !in component { PiecesOfPlain(component, ':'); }
    if GoodKey(other) {
      PiecesCut(other, value, ':');
      DropKeeps([other] + Pieces(value, ':'));
    }
    if GoodKey(key) && value != "" && Clean(value) { ComponentRoundTrip((key, value), key); }
    PiecesThenSeparator(component, ':');
    var ps := Pieces(component, ':');
    assert (ps + [""])[..|ps|] == ps;
  }

  lemma {:induction false} FirstValueIsLookup(ps: seq<Pair>, key: string)
    requires forall i :: 0 <= i < |ps| ==> GoodKey(ps[i].0) && ps[i].1 != "" && Clean(ps[i].1)
    ensures FirstValue(Components(ps), key) == Lookup(ps, key)
  {
    if ps != [] {
      ComponentRoundTrip(ps[0], key);
      FirstValueIsLookup(ps[1..], key);
      assert Components(ps)[1..] == Components(ps[1..]);
    }
  }

  lemma EncodeParses(ps: seq<Pair>, key: string)
    requires forall i :: 0 <= i < |ps| ==> GoodKey(ps[i].0) && ps[i].1 != "" && Clean(ps[i].1)
    ensures Parse(Some(Encode(ps)), key) == Lookup(ps, key)
  {
    if ps == [] {
      assert Encode(ps) == "";
    } else {
      var cs := Components(ps);
      Rot18Involution(Join(cs, '|'));
      forall i | 0 <= i < |cs| ensures '|' !in cs[i] && cs[i] != "" {}
      PiecesOfJoin(cs, '|');
      FirstValueIsLookup(ps, key);
      EncodedIsPresent(ps);
    }
  }

  lemma EncodedIsPresent(ps: seq<Pair>)
    requires ps != []
    ensures !Blank(Encode(ps))
  {
    var cs := Components(ps);
    var plain := Join(cs, '|');
    assert cs[0][|ps[0].0|] == ':';
    assert plain[|ps[0].0|] == ':';
    assert Encode(ps)[|ps[0].0|] == ':';
  }

  /** Whatever the token, a parsed value has no `|` and does not end in `:`. */
  lemma {:induction false} ParsedIsClean(components: seq<string>, key: string)
    requires forall i :: 0 <= i < |components| ==> '|' !in components[i]
    ensures var r := FirstValue(components, key); r.Some? ==> Clean(r.value)
  {
    if components != [] {
      if ComponentValue(components[0], key).Some? {
        var ps := Pieces(components[0], ':');
        var kv := Split(components[0], ':');
        PiecesAvoid(components[0], ':', '|');
        PiecesLackSeparator(components[0], ':');
        DropKeeps(ps);
        var tail := kv[1..];
        assert forall i :: 0 <= i < |tail| ==> tail[i] == ps[i + 1];
        JoinAvoids(tail, ':', '|');
        JoinEnd(tail, ':');
      } else {
        ParsedIsClean(components[1..], key);
      }
    }
  }

  function Kept(v: Option<string>): Option<string> { if Present(v) then v else None }

  /** Every key gives back its value, and an omitted one gives back nothing. */
  ghost predicate RoundTrips(v: Values) {
    var token := Some(NewRecordsToken(v));
    && Parse(token, "set") == Kept(v.set_)
    && Parse(token, "from") == Kept(v.from)
    && Parse(token, "until") == Kept(v.until)
    && Parse(token, "lsv") == Kept(v.lsv)
    && Parse(token, "metadataPrefix") == Kept(v.metadataPrefix)
  }

  ghost predicate CleanOption(v: Option<string>) { Present(v) ==> Clean(v.value) }

  ghost predicate AllClean(v: Values) {
    CleanOption(v.set_) && CleanOption(v.from) && CleanOption(v.until) && CleanOption(v.lsv)
    && CleanOption(v.metadataPrefix)
  }

  lemma LookupAppend(ps: seq<Pair>, qs: seq<Pair>, key: string)
    ensures Lookup(ps + qs, key) == if Lookup(ps, key).Some? then Lookup(ps, key) else Lookup(qs, key)
  {
    if ps == [] {
      assert ps + qs == qs;
    } else {
      LookupAppend(ps[1..], qs, key);
      assert (ps + qs)[1..] == ps[1..] + qs;
    }
  }

  lemma PairsLookup(v: Values, key: string)
    ensures Lookup(Pairs(v), key) ==
            if key == "set" then Kept(v.set_) else if key == "from" then Kept(v.from)
            else if key == "until" then Kept(v.until) else if key == "lsv" then Kept(v.lsv)
            else if key == "metadataPrefix" then Kept(v.metadataPrefix) else None
  {
    var a, b, c, d, e := Shown("set", v.set_), Shown("from", v.from), Shown("until", v.until),
                         Shown("lsv", v.lsv), Shown("metadataPrefix", v.metadataPrefix);
    LookupAppend(a, b, key);
    LookupAppend(a + b, c, key);
    LookupAppend(a + b + c, d, key);
    LookupAppend(a + b + c + d, e, key);
  }

  lemma PairsAreGood(v: Values)
    requires AllClean(v)
    ensures forall i :: 0 <= i < |Pairs(v)| ==>
              GoodKey(Pairs(v)[i].0) && Pairs(v)[i].1 != "" && Clean(Pairs(v)[i].1)
  {}

  /** A token round-trips exactly when no value it carries contains `|` or ends in `:`. */
  lemma TokenRoundTripIff(v: Values)
    ensures RoundTrips(v) <==> AllClean(v)
  {
    var token := Some(NewRecordsToken(v));
    if AllClean(v) {
      PairsAreGood(v);
      forall key: string ensures Parse(token, key) == Lookup(Pairs(v), key) {
        EncodeParses(Pairs(v), key);
      }
      PairsLookup(v, "set");
      PairsLookup(v, "from");
      PairsLookup(v, "until");
      PairsLookup(v, "lsv");
      PairsLookup(v, "metadataPrefix");
    }
    forall key: string ensures CleanOption(Parse(token, key)) {
      ParseIsClean(token, key);
    }
  }

  /** A date cut off after a colon, or a value with a bar in it, does not come back. */
  lemma UncleanValuesLost(v: Values)
    ensures v.from == Some("2024-01-31T10:") ==> Parse(Some(NewRecordsToken(v)), "from") != v.from
    ensures v.lsv == Some("a|b") ==> Parse(Some(NewRecordsToken(v)), "lsv") != v.lsv
  {
    ParseIsClean(Some(NewRecordsToken(v)), "from");
    ParseIsClean(Some(NewRecordsToken(v)), "lsv");
    assert "2024-01-31T10:"[13] == ':' && "a|b"[1] == '|';
  }

  lemma ParseIsClean(token: Option<string>, key: string)
    ensures Parse(token, key).Some? ==> Clean(Parse(token, key).value)
  {
    if Present(token) {
      var plain := Rot18(token.value);
      PiecesLackSeparator(plain, '|');
      DropKeeps(Pieces(plain, '|'));
      ParsedIsClean(Split(plain, '|'), key);
    }
  }

  /** A separator inside a piece makes two pieces of it. */
  lemma {:induction false} JoinSplits(xs: seq<string>, a: string, b: string, ys: seq<string>, c: char)
    ensures Join(xs + [a + [c] + b] + ys, c) == Join(xs + [a, b] + ys, c)
  {
    if xs == [] {
      assert xs + [a + [c] + b] + ys == [a + [c] + b] + ys && xs + [a, b] + ys == [a, b] + ys;
    } else {
      JoinSplits(xs[1..], a, b, ys, c);
      assert (xs + [a + [c] + b] + ys)[1..] == xs[1..] + [a + [c] + b] + ys;
      assert (xs + [a, b] + ys)[1..] == xs[1..] + [a, b] + ys;
    }
  }

  /** The components of a token whose `until` goes on with a bar and an ID of its own. */
  function SplicedPairs(v: Values, x: string, y: string): seq<Pair> {
    Shown("set", v.set_) + Shown("from", v.from) + [("until", x), ("lsv", y)]
    + (Shown("lsv", v.lsv) + Shown("metadataPrefix", v.metadataPrefix))
  }

  lemma SplicedToken(v: Values, x: string, y: string)
    requires v.until == Some(x + "|lsv:" + y) && !Blank(x + "|lsv:" + y)
    ensures NewRecordsToken(v) == Encode(SplicedPairs(v, x, y))
  {
    var before := Shown("set", v.set_) + Shown("from", v.from);
    var after := Shown("lsv", v.lsv) + Shown("metadataPrefix", v.metadataPrefix);
    var a, b := Component(("until", x)), Component(("lsv", y));
    assert Pairs(v) == before + [("until", v.until.value)] + after;
    ComponentsAround(before, ("until", v.until.value), after);
    assert Component(("until", v.until.value)) == a + ['|'] + b;
    ComponentsAroundTwo(before, ("until", x), ("lsv", y), after);
    JoinSplits(Components(before), a, b, Components(after), '|');
  }

  lemma ComponentsAround(before: seq<Pair>, p: Pair, after: seq<Pair>)
    ensures Components(before + [p] + after) == Components(before) + [Component(p)] + Components(after)
  {}

  lemma ComponentsAroundTwo(before: seq<Pair>, p: Pair, q: Pair, after: seq<Pair>)
    ensures Components(before + [p, q] + after) == Components(before) + [Component(p), Component(q)] + Components(after)
  {}

  /** What such a token holds: the spliced ID comes before the one it was made with. */
  function Spliced(v: Values, x: string, y: string, key: string): Option<string> {
    if key == "set" then Kept(v.set_) else if key == "from" then Kept(v.from)
    else if key == "until" then Some(x) else if key == "lsv" then Some(y)
    else if key == "metadataPrefix" then Kept(v.metadataPrefix) else None
  }

  lemma SplicedIdWins(v: Values, x: string, y: string, key: string)
    requires v.until == Some(x + "|lsv:" + y) && !Blank(x) && !Blank(y) && Clean(x) && Clean(y)
    requires AllClean(v.(until := None))
    ensures Parse(Some(NewRecordsToken(v)), key) == Spliced(v, x, y, key)
  {
    assert (x + "|lsv:" + y)[..|x|] == x && !Blank(x + "|lsv:" + y);
    SplicedToken(v, x, y);
    SplicedAreGood(v, x, y);
    EncodeParses(SplicedPairs(v, x, y), key);
    SplicedLookup(v, x, y, key);
  }

  lemma SplicedAreGood(v: Values, x: string, y: string)
    requires !Blank(x) && !Blank(y) && Clean(x) && Clean(y) && AllClean(v.(until := None))
    ensures var ps := SplicedPairs(v, x, y);
            forall i :: 0 <= i < |ps| ==> GoodKey(ps[i].0) && ps[i].1 != "" && Clean(ps[i].1)
  {}

  lemma SplicedLookup(v: Values, x: string, y: string, key: string)
    ensures Lookup(SplicedPairs(v, x, y), key) == Spliced(v, x, y, key)
  {
    var a, b, c := Shown("set", v.set_), Shown("from", v.from), [("until", x), ("lsv", y)];
    var d, e := Shown("lsv", v.lsv), Shown("metadataPrefix", v.metadataPrefix);
    LookupAppend(a, b, key);
    LookupAppend(a + b, c, key);
    LookupAppend(d, e, key);
    LookupAppend(a + b + c, d + e, key);
    assert c[1..] == [("lsv", y)] && [("lsv", y)][1..] == [];
    assert Lookup(c[1..], key) == if key == "lsv" then Some(y) else None;
  }

  lemma SetsTokenRoundTrip(start: nat)
    ensures Parse(Some(NewSetsToken(start)), "start") == Some(Decimal(start))
    ensures ToI(Decimal(start)) == start
  {
    var d := Decimal(start);
    assert IsDigit(d[|d| - 1]);
    EncodeParses([("start", d)], "start");
    DecimalRoundTrip(start);
  }
}
