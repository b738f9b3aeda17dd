/** A search in the store from its text to the flows it returns (storage/service.go, Search). */
module StoredSearch {
  import opened Wrappers
  import opened HttpqlAst
  import opened HttpqlLexer
  import opened HttpqlEval
  import opened LikePattern
  import HttpqlSyntax
  import HttpqlReading
  import HttpqlParser
  import opened BleveQuery

  /** What the database says when the row of a hit is read: its fields, no such row, or another error. */
  datatype Row = Present | Missing | Unreadable(error: string)

  /** An indexed flow and its row. */
  datatype Stored = Stored(flow: Flow, row: Row)

  /** The outcome of a search. A text that is not HTTPQL is left to the index's own query language. */
  datatype Outcome = Found(ids: seq<nat>) | Failed(error: string) | NotHttpql

  /** The hits that bleve.NewSearchRequest asks for. */
  const PAGE := 10

  predicate Finds(search: TextSearch, q: Bleve, f: Flow)
    requires f.request.Some?
  {
    Hits(search, q, IndexDocument(f))
  }

  predicate Distinct(s: seq<nat>) { forall i, j :: 0 <= i < j < |s| ==> s[i] != s[j] }

  /** An order of all of the first `n` positions, best match first. */
  predicate Ranking(r: seq<nat>, n: nat) {
    Distinct(r) && (forall k :: k in r ==> k < n) && forall k: nat :: k < n ==> k in r
  }

  function Filter(p: nat -> bool, s: seq<nat>): seq<nat> {
    if s == [] then [] else
      var before, k := Filter(p, s[..|s| - 1]), s[|s| - 1];
      if p(k) then before + [k] else before
  }

  function FirstPage(s: seq<nat>): seq<nat> { if |s| > PAGE then s[..PAGE] else s }

  lemma FilterAppend(p: nat -> bool, s: seq<nat>, k: nat)
    ensures Filter(p, s + [k]) == if p(k) then Filter(p, s) + [k] else Filter(p, s)
  {
    assert (s + [k])[..|s|] == s;
  }

  lemma {:induction false} FilterMeans(p: nat -> bool, s: seq<nat>)
    ensures forall k :: k in Filter(p, s) <==> k in s && p(k)
    ensures Distinct(s) ==> Distinct(Filter(p, s))
  {
    if s != [] {
      var before, k := s[..|s| - 1], s[|s| - 1];
      FilterMeans(p, before);
      assert s == before + [k];
      if Distinct(s) {
        assert k !in before;
      }
    }
  }

  /** Filtering a prefix gives a prefix. */
  lemma {:induction false} FilterPrefix(p: nat -> bool, s: seq<nat>, n: nat)
    requires n <= |s|
    ensures Filter(p, s[..n]) <= Filter(p, s)
    decreases |s|
  {
    if n == |s| {
      assert s[..n] == s;
    } else {
      assert s[..|s| - 1][..n] == s[..n];
      FilterPrefix(p, s[..|s| - 1], n);
    }
  }

  function Elems(s: seq<nat>): set<nat> { set k | k in s }

  lemma ElemsAppend(s: seq<nat>, k: nat)
    ensures Elems(s + [k]) == Elems(s) + {k}
  {
    assert forall x :: x in s + [k] <==> x in s || x == k;
  }

  lemma {:induction false} DistinctSize(s: seq<nat>)
    requires Distinct(s)
    ensures |Elems(s)| == |s|
  {
    if s != [] {
      var before, last := s[..|s| - 1], s[|s| - 1];
      DistinctSize(before);
      assert s == before + [last] && last !in before;
      ElemsAppend(before, last);
    }
  }

  // ----- the search

  /** One page of what the index finds, best match first. */
  method SearchIndex(hit: nat -> bool, ranking: seq<nat>) returns (page: seq<nat>)
    ensures page == FirstPage(Filter(hit, ranking))
  {
    page := [];
    var i := 0;
    while i < |ranking| && |page| < PAGE
      invariant i <= |ranking| && |page| <= PAGE && page == Filter(hit, ranking[..i])
    {
      assert ranking[..i + 1] == ranking[..i] + [ranking[i]];
      FilterAppend(hit, ranking[..i], ranking[i]);
      if hit(ranking[i]) {
        page := page + [ranking[i]];
      }
      i := i + 1;
    }
    FilterPrefix(hit, ranking, i);
    assert ranking[..|ranking|] == ranking;
  }

  /** The first hit whose row can not be read; the number of hits when there is none. */
  function FirstUnreadable(row: nat -> Row, ids: seq<nat>): (n: nat)
    ensures n <= |ids| && (n < |ids| ==> row(ids[n]).Unreadable?)
    ensures forall k :: 0 <= k < n ==> !row(ids[k]).Unreadable?
  {
    if ids == [] then 0
    else
      var before := FirstUnreadable(row, ids[..|ids| - 1]);
      if before < |ids| - 1 || row(ids[|ids| - 1]).Unreadable? then before else |ids|
  }

  function Fetched(row: nat -> Row, ids: seq<nat>): Outcome {
    var n := FirstUnreadable(row, ids);
    if n < |ids| then Failed(row(ids[n]).error) else Found(Filter(IsPresent(row), ids))
  }

  function IsPresent(row: nat -> Row): nat -> bool { (k: nat) => row(k).Present? }

  /** The rows of the hits; a hit without a row is skipped, any other error ends the search. */
  method FetchRows(row: nat -> Row, ids: seq<nat>) returns (results: Outcome)
    ensures results == Fetched(row, ids)
  {
    hide FirstUnreadable;
    var found: seq<nat> := [];
    for i := 0 to |ids|
      invariant found == Filter(IsPresent(row), ids[..i])
      invariant forall k :: 0 <= k < i ==> !row(ids[k]).Unreadable?
    {
      assert ids[..i + 1] == ids[..i] + [ids[i]];
      FilterAppend(IsPresent(row), ids[..i], ids[i]);
      if row(ids[i]).Unreadable? {
        assert FirstUnreadable(row, ids) == i;
        return Failed(row(ids[i]).error);
      }
      if row(ids[i]).Present? {
        found := found + [ids[i]];
      }
    }
    assert ids[..|ids|] == ids;
    return Found(found);
  }

  function HitBy(search: TextSearch, q: Bleve, stored: seq<Stored>): nat -> bool
    requires forall f :: f in stored ==> f.flow.request.Some?
  {
    (k: nat) => k < |stored| && Finds(search, q, stored[k].flow)
  }

  function RowOf(stored: seq<Stored>): nat -> Row { (k: nat) => if k < |stored| then stored[k].row else Missing }

  /** `refuses` is the error with which the index refuses a query, for one a pattern that does not compile. */
  method Search(search: TextSearch, refuses: Bleve -> Option<string>, u: Unicode, text: string, stored: seq<Stored>,
                ranking: seq<nat>)
    returns (results: Outcome)
    requires forall f :: f in stored ==> f.flow.request.Some?
    requires Ranking(ranking, |stored|)
    ensures
      var parsed := HttpqlSyntax.ParseOr(Lex(u, WithoutByteOrderMark(text)));
      (parsed.Err? ==> results == NotHttpql) &&
      (parsed.Ok? ==>
         var q := BuildBleveQuery(parsed.value.0);
         results ==
         if refuses(q).Some? then Failed(refuses(q).value)
         else Fetched(RowOf(stored), FirstPage(Filter(HitBy(search, q, stored), ranking))))
  {
    hide Lex;
    hide BuildBleveQuery;
    hide Finds;
    hide HttpqlSyntax.ParseOr;
    hide Filter;
    hide FirstPage;
    hide Ranking;
    hide Fetched;
    var l := new Lexer(u, text);
    var p := new HttpqlParser.Parser(l);
    var q := p.ParseQuery();
    if q.Err? {
      return NotHttpql;
    }
    var query := BuildBleveQuery(q.value);
    if refuses(query).Some? {
      return Failed(refuses(query).value);
    }
    var page := SearchIndex(HitBy(search, query, stored), ranking);
    results := FetchRows(RowOf(stored), page);
  }

  // ----- what it returns

  /** The positions that satisfy `p`. */
  function Where(p: nat -> bool, n: nat): set<nat> { set k: nat | k < n && p(k) }

  lemma RankedHits(hit: nat -> bool, ranking: seq<nat>, n: nat)
    requires Ranking(ranking, n)
    ensures Elems(Filter(hit, ranking)) == Where(hit, n)
    ensures Distinct(Filter(hit, ranking)) && |Filter(hit, ranking)| == |Where(hit, n)|
  {
    FilterMeans(hit, ranking);
    DistinctSize(Filter(hit, ranking));
    assert Elems(Filter(hit, ranking)) == Where(hit, n);
  }

  /** Where in `s` the elements of its filtered list stand: in order, and nowhere else does the test hold. */
  lemma {:induction false} FilterPlaces(p: nat -> bool, s: seq<nat>) returns (at: seq<nat>)
    ensures |at| == |Filter(p, s)| && forall i :: 0 <= i < |at| ==> at[i] < |s| && Filter(p, s)[i] == s[at[i]]
    ensures forall i, j :: 0 <= i < j < |at| ==> at[i] < at[j]
    ensures forall k :: 0 <= k < |s| && p(s[k]) ==> k in at
  {
    at := [];
    if s != [] {
      var n := |s| - 1;
      at := FilterPlaces(p, s[..n]);
      if p(s[n]) {
        at := at + [n];
      }
    }
  }

  /** The page is the top of the ranking: a hit ranked before one on the page is on it too, and before it there. */
  lemma PageIsTop(hit: nat -> bool, ranking: seq<nat>, n: nat, a: nat, b: nat)
    requires Ranking(ranking, n) && a < b < |ranking| && hit(ranking[a])
    ensures
      var page := FirstPage(Filter(hit, ranking));
      ranking[b] in page ==> exists i, j :: 0 <= i < j < |page| && page[i] == ranking[a] && page[j] == ranking[b]
  {
    var page := FirstPage(Filter(hit, ranking));
    if ranking[b] in page {
      var at := FilterPlaces(hit, ranking);
      hide Filter;
      var j :| 0 <= j < |page| && page[j] == ranking[b];
      assert at[j] == b;
      var i :| 0 <= i < |at| && at[i] == a;
      assert i < j && page[i] == ranking[a];
    }
  }

  /** A page holds distinct hits, ten of them or all. */
  lemma PageHolds(hit: nat -> bool, ranking: seq<nat>, n: nat)
    requires Ranking(ranking, n)
    ensures
      var page, hits := FirstPage(Filter(hit, ranking)), |Where(hit, n)|;
      Distinct(page) && (forall k :: k in page ==> k < n && hit(k)) &&
      |page| == (if hits < 10 then hits else 10) &&
      ((forall k: nat :: k < n && hit(k) ==> k in page) <==> hits <= 10)
  {
    RankedHits(hit, ranking, n);
    FilterMeans(hit, ranking);
    var all, page := Filter(hit, ranking), FirstPage(Filter(hit, ranking));
    assert forall k :: k in page ==> k in all;
    if |all| > PAGE {
      var missed := all[PAGE];
      assert missed in all;
      assert missed !in page;
    }
  }

  /** The rows are found exactly when every hit of the page that has a row can be read. Then every matching flow
      is returned exactly when at most ten match and all of these still have their row. */
  lemma AllReturnedExactly(hit: nat -> bool, row: nat -> Row, ranking: seq<nat>, n: nat)
    requires Ranking(ranking, n)
    ensures
      var page := FirstPage(Filter(hit, ranking));
      var results := Fetched(row, page);
      (results.Found? <==> forall k :: k in page ==> !row(k).Unreadable?) && !results.NotHttpql? &&
      (results.Failed? ==> exists k :: k in page && row(k) == Unreadable(results.error)) &&
      (results.Found? ==>
         Distinct(results.ids) && |results.ids| <= 10 &&
         (forall k :: k in results.ids ==> k < n && hit(k) && row(k).Present?) &&
         ((forall k: nat :: k < n && hit(k) ==> k in results.ids) <==>
          |Where(hit, n)| <= 10 && forall k: nat :: k < n && hit(k) ==> row(k).Present?))
  {
    PageHolds(hit, ranking, n);
    var page := FirstPage(Filter(hit, ranking));
    FilterMeans(IsPresent(row), page);
    FilterShort(IsPresent(row), page);
    hide Filter;
    hide FirstPage;
    hide Ranking;
    var i := FirstUnreadable(row, page);
    hide FirstUnreadable;
    if i < |page| {
      assert page[i] in page && row(page[i]).Unreadable?;
    }
  }

  lemma {:induction false} FilterShort(p: nat -> bool, s: seq<nat>)
    ensures |Filter(p, s)| <= |s|
  {
    if s != [] {
      FilterShort(p, s[..|s| - 1]);
    }
  }

  /** For a text whose query is in the supported fragment, a covered flow matches exactly when the tokens
      that were read, split at their ORs and then at their ANDs, hold of it. */
  lemma SearchFindsReading(search: TextSearch, re: Engine, u: Unicode, text: string, f: Flow)
    requires HttpqlSyntax.ParseOr(Lex(u, text)).Ok?
    requires Supported(HttpqlSyntax.ParseOr(Lex(u, text)).value.0)
    requires Covered(HttpqlSyntax.ParseOr(Lex(u, text)).value.0, f)
    ensures
      var ts, (q, rest) := Lex(u, text), HttpqlSyntax.ParseOr(Lex(u, text)).value;
      |rest| <= |ts| &&
      (Finds(search, BuildBleveQuery(q), f) <==>
       HttpqlReading.ReadOr(re, HttpqlReading.Units(ts[..|ts| - |rest|]), f))
  {
    hide Lex;
    hide Hits;
    hide BuildBleveQuery;
    hide IndexDocument;
    hide Eval;
    HttpqlReading.ParsedQueryReads(re, u, text, f);
    SearchAgreesWithEval(search, re, HttpqlSyntax.ParseOr(Lex(u, text)).value.0, f);
  }
}
