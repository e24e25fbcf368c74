/**
  Harvesting over OAI-PMH 2.0 (flow control, section 3.5; ListIdentifiers,
  ListRecords and ListSets, sections 4.3, 4.5 and 4.6): serving one page and
  following the tokens to the end of the list.
 */
module Harvest {
  import opened Lexicographic
  import opened Text
  import opened Tokens
  import opened Wrappers

  const MAX_RESULT_WINDOW := 100

  datatype Params = Params(token: Option<string>, set_: Option<string>, from: Option<string>,
                           until: Option<string>, metadataPrefix: Option<string>)

  function TokenOnly(token: string): Params { Params(Some(token), None, None, None, None) }

  /** What restricts the list: a blank set is no restriction. */
  datatype Filters = Filters(set_: Option<string>, from: Option<string>, until: Option<string>,
                             metadataPrefix: Option<string>)

  datatype Error = NoRecordsMatch | ServerError

  datatype Page = Page(results: seq<string>, total: nat, token: Option<string>)

  /** The matching item IDs in index order, for each choice of filters. */
  type Index = Filters -> seq<string>

  function Codes(s: string): Word { seq(|s|, i requires 0 <= i < |s| => s[i] as int) }

  ghost predicate InOrder(list: seq<string>) {
    forall i, j :: 0 <= i < j < |list| ==> Less(Codes(list[i]), Codes(list[j]))
  }

  /** `search_after`: the IDs greater than the given one, in order. */
  function SearchAfter(list: seq<string>, lsv: string): seq<string> {
    if list == [] then [] else
    (if Less(Codes(lsv), Codes(list[0])) then [list[0]] else []) + SearchAfter(list[1..], lsv)
  }

  function OrParam(x: Option<string>, y: Option<string>): Option<string> { if x.Some? then x else y }

  function FiltersOf(p: Params): Filters {
    Filters(Kept(OrParam(Parse(p.token, "set"), p.set_)),
            OrParam(Parse(p.token, "from"), p.from),
            OrParam(Parse(p.token, "until"), p.until),
            OrParam(Parse(p.token, "metadataPrefix"), p.metadataPrefix))
  }

  /** A blank date is not a time. */
  predicate BadDates(f: Filters) {
    (f.from.Some? && Blank(f.from.value)) || (f.until.Some? && Blank(f.until.value))
  }

  function FirstPage(list: seq<string>): seq<string> {
    if |list| <= MAX_RESULT_WINDOW then list else list[..MAX_RESULT_WINDOW]
  }

  /** One ListRecords or ListIdentifiers response. */
  function FetchRecords(index: Index, p: Params): Result<Page, Error> {
    var f := FiltersOf(p);
    if BadDates(f) then Failure(ServerError) else PageAfter(f, index(f), Parse(p.token, "lsv"))
  }

  function PageAfter(f: Filters, list: seq<string>, lsv: Option<string>): Result<Page, Error> {
    var results := FirstPage(if lsv.Some? then SearchAfter(list, lsv.value) else list);
    if |list| < 1 then Failure(NoRecordsMatch) else
    var last := if results == [] then None else Some(results[|results| - 1]);
    var token := NewRecordsToken(Values(f.set_, f.from, f.until, last, f.metadataPrefix));
    Success(Page(results, |list|, if last.Some? then Some(token) else None))
  }

  /** Without a token the filters are the request's own arguments; a set that is not given or blank is none. */
  lemma FirstRequestFilters(p: Params)
    requires p.token.None?
    ensures FiltersOf(p) == Filters(if p.set_.Some? && exists i :: 0 <= i < |p.set_.value| && !IsSpace(p.set_.value[i])
                                    then p.set_ else None, p.from, p.until, p.metadataPrefix)
    ensures Parse(p.token, "lsv") == None
  {}

  /** With a token, each of its values goes before the argument of that name, which counts if the token has none. */
  lemma TokenGoesFirst(p: Params, v: Values)
    requires p.token == Some(NewRecordsToken(v)) && AllClean(v)
    ensures FiltersOf(p) == Filters(if Present(v.set_) then v.set_ else if Present(p.set_) then p.set_ else None,
                                    if Present(v.from) then v.from else p.from,
                                    if Present(v.until) then v.until else p.until,
                                    if Present(v.metadataPrefix) then v.metadataPrefix else p.metadataPrefix)
  {
    TokenRoundTripIff(v);
  }

  /** The filters survive a token, whatever page it came from. */
  ghost predicate CleanFilters(f: Filters) {
    CleanOption(f.set_) && CleanOption(f.from) && CleanOption(f.until) && CleanOption(f.metadataPrefix)
    && Kept(f.metadataPrefix) == f.metadataPrefix && !BadDates(f)
  }

  /** What a token recovers: the filters, and the ID it was made with. */
  ghost predicate Recovers(f: Filters, last: string) {
    var p := TokenOnly(NewRecordsToken(Values(f.set_, f.from, f.until, Some(last), f.metadataPrefix)));
    FiltersOf(p) == f && Parse(p.token, "lsv") == Some(last)
  }

  /** That happens exactly when the filters and the ID are clean. */
  lemma FiltersRecoveredIff(f: Filters, last: string)
    requires f.set_ == Kept(f.set_) && !BadDates(f) && !Blank(last)
    ensures Recovers(f, last) <==> CleanFilters(f) && Clean(last)
  {
    var v := Values(f.set_, f.from, f.until, Some(last), f.metadataPrefix);
    TokenRoundTripIff(v);
    forall key: string ensures CleanOption(Parse(Some(NewRecordsToken(v)), key)) {
      if Parse(Some(NewRecordsToken(v)), key).Some? { ParseIsClean(Some(NewRecordsToken(v)), key); }
    }
  }

  lemma {:induction false} NoneAfter(list: seq<string>, lsv: string)
    requires InOrder(list) && forall i :: 0 <= i < |list| ==> !Less(Codes(lsv), Codes(list[i]))
    ensures SearchAfter(list, lsv) == []
  {
    if list != [] { NoneAfter(list[1..], lsv); }
  }

  /** Searching after the ID at index `i` gives what follows it. */
  lemma {:induction false} SearchAfterIndex(list: seq<string>, i: nat)
    requires InOrder(list) && i < |list|
    ensures SearchAfter(list, list[i]) == list[i + 1..]
  {
    if i == 0 {
      Irreflexive(Codes(list[0]));
      AllAfter(list[1..], list[0]);
    } else {
      if Less(Codes(list[i]), Codes(list[0])) {
        Transitive(Codes(list[i]), Codes(list[0]), Codes(list[i]));
        Irreflexive(Codes(list[i]));
      }
      SearchAfterIndex(list[1..], i - 1);
      assert list[1..][i - 1] == list[i];
    }
  }

  lemma {:induction false} AllAfter(list: seq<string>, lsv: string)
    requires forall i :: 0 <= i < |list| ==> Less(Codes(lsv), Codes(list[i]))
    ensures SearchAfter(list, lsv) == list
  {
    if list != [] { AllAfter(list[1..], lsv); }
  }

  /** Requests that a harvest of `n` records takes: the full pages, and one that comes back empty. */
  function RequestsFor(n: nat): nat { (n + MAX_RESULT_WINDOW - 1) / MAX_RESULT_WINDOW + 1 }

  ghost predicate GoodIds(list: seq<string>) {
    InOrder(list) && forall i :: 0 <= i < |list| ==> !Blank(list[i]) && Clean(list[i])
  }

  /** IDs as the index has them, and the filters of a request that only names a format. */
  lemma UsualIdsAreGood()
    ensures GoodIds(["a1", "a2"]) && CleanFilters(Filters(None, None, None, Some("oai_dc")))
  {
    var list := ["a1", "a2"];
    LessIff(Codes(list[0]), Codes(list[1]));
    assert Codes(list[0])[..1] == Codes(list[1])[..1];
    assert "a1"[0] == "a2"[0] == 'a' && "oai_dc"[0] == 'o';
  }

  /** The request `p` asks, under filters `f`, for what follows the first `n` records of `list`. */
  ghost predicate AsksFrom(p: Params, f: Filters, list: seq<string>, n: nat) {
    && n <= |list|
    && FiltersOf(p) == f
    && Parse(p.token, "lsv") == if n == 0 then None else Some(list[n - 1])
  }

  ghost predicate Harvestable(index: Index, f: Filters, list: seq<string>) {
    CleanFilters(f) && f.set_ == Kept(f.set_) && list == index(f) && GoodIds(list) && list != []
  }

  /** The page gives what follows the first `n` records, and its token asks for what follows the page. */
  ghost predicate Continues(page: Page, f: Filters, list: seq<string>, n: nat)
    requires n <= |list|
  {
    && page.results == FirstPage(list[n..]) && page.total == |list|
    && (page.token.Some? <==> n < |list|)
    && (page.token.Some? ==> AsksFrom(TokenOnly(page.token.value), f, list, n + |page.results|))
  }

  /** A page continues where its request left off, and ends after at most 100 records. */
  lemma PageContinues(index: Index, p: Params, f: Filters, list: seq<string>, n: nat)
    requires Harvestable(index, f, list) && AsksFrom(p, f, list, n)
    ensures FetchRecords(index, p).Success?
    ensures var page, end := FetchRecords(index, p).value, if n + 100 <= |list| then n + 100 else |list|;
            && page.results == list[n..end] && page.total == |list| && (page.token.Some? <==> n < |list|)
            && (page.token.Some? ==>
                && FiltersOf(TokenOnly(page.token.value)) == f
                && Parse(page.token, "lsv") == Some(list[end - 1]))
  {
    PageIsServed(index, p, f, list, n);
    ContinuesMeans(FetchRecords(index, p).value, f, list, n);
  }

  lemma ContinuesMeans(page: Page, f: Filters, list: seq<string>, n: nat)
    requires n <= |list| && Continues(page, f, list, n)
    ensures var end := if n + 100 <= |list| then n + 100 else |list|;
            && page.results == list[n..end]
            && (page.token.Some? ==>
                && FiltersOf(TokenOnly(page.token.value)) == f
                && Parse(page.token, "lsv") == Some(list[end - 1]))
  {}

  lemma PageIsServed(index: Index, p: Params, f: Filters, list: seq<string>, n: nat)
    requires Harvestable(index, f, list) && AsksFrom(p, f, list, n)
    ensures FetchRecords(index, p).Success? && Continues(FetchRecords(index, p).value, f, list, n)
  {
    PageServed(index, p, f, list, n);
    TokenContinues(f, list, n);
  }

  function TokenAfter(f: Filters, results: seq<string>): Option<string> {
    if results == [] then None
    else Some(NewRecordsToken(Values(f.set_, f.from, f.until, Some(results[|results| - 1]), f.metadataPrefix)))
  }

  lemma PageServed(index: Index, p: Params, f: Filters, list: seq<string>, n: nat)
    requires Harvestable(index, f, list) && AsksFrom(p, f, list, n)
    ensures var results := FirstPage(list[n..]);
            FetchRecords(index, p) == Success(Page(results, |list|, TokenAfter(f, results)))
  {
    PageAfterIs(f, list, n);
  }

  lemma PageAfterIs(f: Filters, list: seq<string>, n: nat)
    requires GoodIds(list) && list != [] && n <= |list|
    ensures var results := FirstPage(list[n..]);
            PageAfter(f, list, if n == 0 then None else Some(list[n - 1]))
            == Success(Page(results, |list|, TokenAfter(f, results)))
  {
    if n == 0 {
      assert list[0..] == list;
    } else {
      SearchAfterIndex(list, n - 1);
      assert SearchAfter(list, list[n - 1]) == list[n..];
    }
  }

  lemma TokenContinues(f: Filters, list: seq<string>, n: nat)
    requires CleanFilters(f) && f.set_ == Kept(f.set_) && GoodIds(list) && n <= |list|
    ensures var results := FirstPage(list[n..]);
            && (TokenAfter(f, results).Some? <==> n < |list|)
            && (n < |list| ==> AsksFrom(TokenOnly(TokenAfter(f, results).value), f, list, n + |results|))
  {
    if n < |list| {
      var results := FirstPage(list[n..]);
      assert results[|results| - 1] == list[n + |results| - 1];
      FiltersRecoveredIff(f, results[|results| - 1]);
    }
  }

  lemma PageLength(list: seq<string>, n: nat)
    requires n <= |list|
    ensures n + |FirstPage(list[n..])| == if n + MAX_RESULT_WINDOW <= |list| then n + MAX_RESULT_WINDOW else |list|
    ensures list[..n] + FirstPage(list[n..]) == list[..n + |FirstPage(list[n..])|]
  {}

  /** Serves the request that asks for what follows the first `n` records. */
  method NextPage(index: Index, p: Params, ghost f: Filters, ghost list: seq<string>, ghost n: nat)
    returns (page: Page)
    requires Harvestable(index, f, list) && AsksFrom(p, f, list, n)
    ensures Continues(page, f, list, n)
  {
    PageIsServed(index, p, f, list, n);
    page := FetchRecords(index, p).value;
  }

  /**
    A client that starts without a token and follows every token it is given
    receives the whole list, once, under the filters of its first request.
   */
  method HarvestRecords(index: Index, first: Params) returns (records: seq<string>, requests: nat)
    requires first.token.None?
    requires var f := Filters(Kept(first.set_), first.from, first.until, first.metadataPrefix);
             CleanFilters(f) && GoodIds(index(f)) && index(f) != []
    ensures records == index(Filters(Kept(first.set_), first.from, first.until, first.metadataPrefix))
    ensures requests == (|records| + 99) / 100 + 1
  {
    records, requests := FollowTokens(index, first, FiltersOf(first), index(FiltersOf(first)));
  }

  method FollowTokens(index: Index, first: Params, ghost f: Filters, ghost list: seq<string>)
    returns (records: seq<string>, requests: nat)
    requires Harvestable(index, f, list) && AsksFrom(first, f, list, 0)
    ensures records == list
    ensures requests == RequestsFor(|records|)
  {
    var p := first;
    records, requests := [], 0;
    while true
      invariant |records| <= |list| && records == list[..|records|]
      invariant AsksFrom(p, f, list, |records|)
      invariant |records| == if 100 * requests <= |list| then 100 * requests else |list|
      invariant requests == 0 || 100 * (requests - 1) < |list|
      decreases |list| - |records|
    {
      var page := NextPage(index, p, f, list, |records|);
      PageLength(list, |records|);
      records := records + page.results;
      if page.token.None? {
        requests := requests + 1;
        return;
      }
      requests := requests + 1;
      p := TokenOnly(page.token.value);
    }
  }

  lemma SplicedRequest(f: Filters, x: string, y: string, last: string)
    requires CleanFilters(f.(until := None)) && f.set_ == Kept(f.set_) && Clean(last)
    requires f.until == Some(x + "|lsv:" + y) && !Blank(x) && !Blank(y) && Clean(x) && Clean(y)
    ensures var p := TokenOnly(NewRecordsToken(Values(f.set_, f.from, f.until, Some(last), f.metadataPrefix)));
            FiltersOf(p) == f.(until := Some(x)) && Parse(p.token, "lsv") == Some(y)
  {
    var v := Values(f.set_, f.from, f.until, Some(last), f.metadataPrefix);
    SplicedIdWins(v, x, y, "set");
    SplicedIdWins(v, x, y, "from");
    SplicedIdWins(v, x, y, "until");
    SplicedIdWins(v, x, y, "lsv");
    SplicedIdWins(v, x, y, "metadataPrefix");
  }

  /**
    With a bar and an ID of its own in `until`, every token asks for what follows
    that ID: if it comes before the whole list, the second page is the first again.
   */
  lemma SplicedUntilRepeats(index: Index, f: Filters, x: string, y: string, last: string)
    requires CleanFilters(f.(until := None)) && f.set_ == Kept(f.set_) && Clean(last)
    requires f.until == Some(x + "|lsv:" + y) && !Blank(x) && !Blank(y) && Clean(x) && Clean(y)
    requires var list := index(f.(until := Some(x)));
             list != [] && forall i :: 0 <= i < |list| ==> Less(Codes(y), Codes(list[i]))
    ensures var p := TokenOnly(NewRecordsToken(Values(f.set_, f.from, f.until, Some(last), f.metadataPrefix)));
            && FetchRecords(index, p).Success?
            && FetchRecords(index, p).value.results == FirstPage(index(f.(until := Some(x))))
  {
    SplicedRequest(f, x, y, last);
    AllAfter(index(f.(until := Some(x))), y);
  }

  const SPLICED := "2024-01-01|lsv:0"

  lemma SplicedIsOne()
    ensures SPLICED == "2024-01-01" + "|lsv:" + "0"
    ensures !Blank(SPLICED) && !Blank("2024-01-01") && !Blank("0") && Clean("2024-01-01") && Clean("0")
  {
    assert SPLICED[0] == '2' && "2024-01-01"[0] == '2' && "2024-01-01"[9] == '1' && "0"[0] == '0';
  }

  lemma FirstRequest(index: Index, list: seq<string>)
    requires list != [] && forall f :: index(f) == list
    ensures FetchRecords(index, Params(None, None, None, Some(SPLICED), None)) ==
            Success(Page(FirstPage(list), |list|,
                         TokenAfter(Filters(None, None, Some(SPLICED), None), FirstPage(list))))
  {
    SplicedIsOne();
  }

  /** A concrete one; IDs such as `item:7` come after `0`. */
  lemma SecondPageRepeats(index: Index, list: seq<string>)
    requires list != [] && (forall i :: 0 <= i < |list| ==> list[i] != "" && '0' < list[i][0] && Clean(list[i]))
    requires forall f :: index(f) == list
    ensures var first := Params(None, None, None, Some(SPLICED), None);
            var page := FetchRecords(index, first);
            && page.Success? && page.value.token.Some?
            && var again := FetchRecords(index, TokenOnly(page.value.token.value));
            && again.Success? && again.value.results == page.value.results == FirstPage(list)
  {
    var f := Filters(None, None, Some(SPLICED), None);
    SplicedIsOne();
    FirstRequest(index, list);
    forall i | 0 <= i < |list| ensures Less(Codes("0"), Codes(list[i])) {
      assert Codes("0")[0] < Codes(list[i])[0];
    }
    var last := FirstPage(list)[|FirstPage(list)| - 1];
    assert last == list[|FirstPage(list)| - 1];
    SplicedUntilRepeats(index, f, "2024-01-01", "0", last);
  }

  /** A first request fails if a date is given and blank, or else if nothing matches, and in no other case. */
  lemma EmptyListIsError(index: Index, first: Params)
    requires first.token.None?
    ensures var r := FetchRecords(index, first);
            && (r == Failure(ServerError) <==>
                (first.from.Some? && Blank(first.from.value)) || (first.until.Some? && Blank(first.until.value)))
            && (r == Failure(NoRecordsMatch) <==>
                && r != Failure(ServerError)
                && index(Filters(Kept(first.set_), first.from, first.until, first.metadataPrefix)) == [])
  {}

  // ----- ListSets -----

  datatype SetsPage = SetsPage(results: seq<string>, total: nat, token: Option<string>)

  /** The offset a token asks for; no token is the first page. */
  function StartOf(token: Option<string>): int {
    var start := Parse(token, "start");
    if start.Some? then ToI(start.value) else 0
  }

  /** One ListSets response over the ordered list of sets; a negative offset is an SQL error. */
  function FetchSets(sets: seq<string>, token: Option<string>): Result<SetsPage, Error> {
    SetsFrom(sets, StartOf(token))
  }

  function SetsFrom(sets: seq<string>, start: int): Result<SetsPage, Error> {
    if start < 0 then Failure(ServerError) else
    var results := if start <= |sets| then FirstPage(sets[start..]) else [];
    var next := start + MAX_RESULT_WINDOW;
    Success(SetsPage(results, |sets|, if next < |sets| then Some(NewSetsToken(next)) else None))
  }

  /** Following the tokens from a first ListSets request yields every set once, on no more pages than needed. */
  method HarvestSets(sets: seq<string>) returns (all: seq<string>, requests: nat)
    ensures all == sets
    ensures requests == if sets == [] then 1 else (|sets| + 99) / 100
  {
    var token: Option<string> := None;
    all, requests := [], 0;
    while true
      invariant StartOf(token) == |all| && |all| == MAX_RESULT_WINDOW * requests
      invariant |all| <= |sets| && all == sets[..|all|] && (|all| < |sets| || all == [])
      decreases |sets| - |all|
    {
      var page := NextSets(sets, token, |all|);
      PageLength(sets, |all|);
      all := all + page.results;
      requests := requests + 1;
      if page.token.None? { return; }
      token := page.token;
    }
  }

  ghost predicate SetsContinue(page: SetsPage, sets: seq<string>, start: nat)
    requires start <= |sets|
  {
    && page.results == FirstPage(sets[start..]) && page.total == |sets|
    && (page.token.Some? <==> start + MAX_RESULT_WINDOW < |sets|)
    && (page.token.Some? ==> StartOf(page.token) == start + MAX_RESULT_WINDOW)
  }

  /** The offset is 0 without a token, and must not be negative. */
  lemma SetsRefusedIff(sets: seq<string>, token: Option<string>)
    ensures StartOf(None) == 0
    ensures FetchSets(sets, token).Failure? <==> Parse(token, "start").Some? && ToI(Parse(token, "start").value) < 0
    ensures var page := FetchSets(sets, Some(NewSetsToken(|sets|)));
            page.Success? && page.value.results == [] && page.value.token == None
  {
    SetsTokenAsks(|sets|);
  }

  lemma SetsPageContinues(sets: seq<string>, token: Option<string>, start: nat)
    requires StartOf(token) == start && start <= |sets|
    ensures FetchSets(sets, token).Success? && SetsContinue(FetchSets(sets, token).value, sets, start)
    ensures var page := FetchSets(sets, token).value;
            && page.results == sets[start..if start + 100 <= |sets| then start + 100 else |sets|]
            && page.total == |sets| && (page.token.Some? <==> start + 100 < |sets|)
            && (page.token.Some? ==> StartOf(page.token) == start + 100)
  {
    SetsTokenAsks(start + MAX_RESULT_WINDOW);
  }

  lemma SetsTokenAsks(start: nat)
    ensures StartOf(Some(NewSetsToken(start))) == start
  {
    SetsTokenRoundTrip(start);
  }

  method NextSets(sets: seq<string>, token: Option<string>, ghost start: nat) returns (page: SetsPage)
    requires StartOf(token) == start && start <= |sets|
    ensures SetsContinue(page, sets, start)
  {
    SetsPageContinues(sets, token, start);
    page := FetchSets(sets, token).value;
  }
}
