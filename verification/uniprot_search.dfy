/**
 UniProt free-text search (proteinFinder.py:246-326): one GET per query whose
 body is a newline-separated accession list, flattened into (query, id) rows.
 */
module UniprotSearch {
  import opened Text
  import opened Base

  const OrganismClause: String := "+AND+organism:"

  /** The id recorded for a query whose search body was blank. */
  const NotFoundText: String := "Not found"

  /** `str(organismID)`: an absent organism prints as `None`. */
  function OrganismText(organism: Option<String>): String {
    match organism
    case Some(o) => o
    case None => "None"
  }

  /** The `query` parameter: the organism clause is appended whether or not an
      organism was given. */
  function SearchTerm(query: String, organism: Option<String>): (term: String)
    ensures |term| == |query| + |OrganismClause| + |OrganismText(organism)|
    ensures term[..|query|] == query
    ensures term[|query|..|query| + |OrganismClause|] == OrganismClause
    ensures organism.None? ==> term[|query| + |OrganismClause|..] == "None"
    ensures organism.Some? ==> term[|query| + |OrganismClause|..] == organism.value
  {
    query + OrganismClause + OrganismText(organism)
  }

  /** `queryUniprotID` on its response: a non-ok response raises; an ok one
      yields its stripped body, or `Not found` when the body is blank. Either
      way the result is non-empty and has no whitespace at its ends. */
  function ClassifySearch(resp: Response): (r: Result<String>)
    ensures r.Failure? <==> !resp.ok
    ensures r.Failure? ==> r.error == HttpError
    ensures r.Success? ==> r.value != [] && !IsSpace(r.value[0]) && !IsSpace(r.value[|r.value| - 1])
    ensures r.Success? && IsBlank(resp.text) ==> r.value == NotFoundText
    ensures r.Success? && !IsBlank(resp.text) ==> r.value == Strip(resp.text)
  {
    if resp.ok then
      var s := Strip(resp.text);
      if s != [] then Success(s) else Success(NotFoundText)
    else
      Failure(HttpError)
  }

  /** `queryUniprotID` for one query: the GET on its search term, classified.
      It raises exactly when the response to that search term is not ok. */
  function QueryUniprotId(query: String, organism: Option<String>, fetch: String -> Response): (r: Result<String>)
    ensures r.Failure? <==> !fetch(SearchTerm(query, organism)).ok
    ensures r.Failure? ==> r.error == HttpError
  {
    ClassifySearch(fetch(SearchTerm(query, organism)))
  }

  /** The requests of the `queryTerms` loop, in query order: the result string
      of each query, or the error of the first request that raises. */
  function SearchAll(queries: seq<String>, organism: Option<String>, fetch: String -> Response)
    : (r: Result<seq<String>>)
    ensures r.Failure? ==> r.error == HttpError
    ensures r.Success? ==> |r.value| == |queries|
  {
    if |queries| == 0 then Success([])
    else
      match QueryUniprotId(queries[0], organism, fetch)
      case Failure(e) => Failure(e)
      case Success(ids) =>
        match SearchAll(queries[1..], organism, fetch)
        case Failure(e) => Failure(e)
        case Success(rest) => Success([ids] + rest)
  }

  /** Some search request of the list is refused. */
  predicate SomeRefused(queries: seq<String>, organism: Option<String>, fetch: String -> Response) {
    exists i :: 0 <= i < |queries| && !fetch(SearchTerm(queries[i], organism)).ok
  }

  /** The loop fails exactly when one of its requests is refused. */
  lemma {:induction false} SearchAllFails(queries: seq<String>, organism: Option<String>, fetch: String -> Response)
    ensures SearchAll(queries, organism, fetch).Failure? <==> SomeRefused(queries, organism, fetch)
  {
    if |queries| > 0 {
      SearchAllFailStep(queries, organism, fetch);
      SomeRefusedStep(queries, organism, fetch);
      SearchAllFails(queries[1..], organism, fetch);
    }
  }

  lemma SearchAllFailStep(queries: seq<String>, organism: Option<String>, fetch: String -> Response)
    requires |queries| > 0
    ensures SearchAll(queries, organism, fetch).Failure?
      <==> !fetch(SearchTerm(queries[0], organism)).ok || SearchAll(queries[1..], organism, fetch).Failure?
  {
  }

  lemma SomeRefusedStep(queries: seq<String>, organism: Option<String>, fetch: String -> Response)
    requires |queries| > 0
    ensures SomeRefused(queries, organism, fetch)
      <==> !fetch(SearchTerm(queries[0], organism)).ok || SomeRefused(queries[1..], organism, fetch)
  {
    if SomeRefused(queries[1..], organism, fetch) {
      var i :| 0 <= i < |queries[1..]| && !fetch(SearchTerm(queries[1..][i], organism)).ok;
      assert queries[1..][i] == queries[i + 1];
    }
    if SomeRefused(queries, organism, fetch) && fetch(SearchTerm(queries[0], organism)).ok {
      var i :| 0 <= i < |queries| && !fetch(SearchTerm(queries[i], organism)).ok;
      assert queries[1..][i - 1] == queries[i];
    }
  }

  /** On success, result i is what `queryUniprotID` gives for query i. */
  lemma {:induction false} SearchAllResults(queries: seq<String>, organism: Option<String>, fetch: String -> Response)
    requires SearchAll(queries, organism, fetch).Success?
    ensures forall i :: 0 <= i < |queries| ==>
      QueryUniprotId(queries[i], organism, fetch) == Success(SearchAll(queries, organism, fetch).value[i])
  {
    if |queries| > 0 {
      SearchAllResults(queries[1..], organism, fetch);
      var r := SearchAll(queries, organism, fetch).value;
      forall i | 1 <= i < |queries|
        ensures QueryUniprotId(queries[i], organism, fetch) == Success(r[i])
      {
        assert queries[1..][i - 1] == queries[i];
      }
    }
  }

  /** The newlines in all results together. */
  function Newlines(results: seq<String>): nat {
    if |results| == 0 then 0 else Occurrences(results[0], '\n') + Newlines(results[1..])
  }

  /** The rows `queryTerms` builds from the results: for each query in order,
      one row per line of its result string; so a row for each query plus one
      for each newline. */
  function Melt(queries: seq<String>, results: seq<String>): (rows: seq<Hit>)
    requires |results| == |queries|
    ensures |rows| == |queries| + Newlines(results)
  {
    if |queries| == 0 then []
    else RowsOf(queries[0], Split(results[0], '\n')) + Melt(queries[1..], results[1..])
  }

  /** Every row carries one of the queries. */
  lemma {:induction false} MeltQueries(queries: seq<String>, results: seq<String>)
    requires |results| == |queries|
    ensures forall h :: h in Melt(queries, results) ==> h.query in queries
  {
    if |queries| > 0 {
      MeltQueries(queries[1..], results[1..]);
      forall h | h in Melt(queries, results) ensures h.query in queries {
        if h !in RowsOf(queries[0], Split(results[0], '\n')) {
          assert h in Melt(queries[1..], results[1..]);
          assert h.query in queries[1..];
        }
      }
    }
  }

  /** Every query has at least one row, since a split never yields no piece. */
  lemma {:induction false} MeltCovers(queries: seq<String>, results: seq<String>)
    requires |results| == |queries|
    ensures forall i :: 0 <= i < |queries| ==> Covers(Melt(queries, results), queries[i])
  {
    if |queries| > 0 {
      MeltCovers(queries[1..], results[1..]);
      var rows := Melt(queries, results);
      var head := RowsOf(queries[0], Split(results[0], '\n'));
      var rest := Melt(queries[1..], results[1..]);
      assert head[0] in rows;
      forall i | 1 <= i < |queries| ensures Covers(rows, queries[i]) {
        assert queries[1..][i - 1] == queries[i];
        var h :| h in rest && h.query == queries[i];
        assert h in rows;
      }
    }
  }

  /** The rows of a query asked once are the lines of its result, in order. */
  lemma {:induction false} MeltRowsOfQuery(queries: seq<String>, results: seq<String>, i: nat)
    requires |results| == |queries| && i < |queries|
    requires queries[i] !in queries[..i] && queries[i] !in queries[i + 1..]
    ensures HitsFor(Melt(queries, results), queries[i]) == RowsOf(queries[i], Split(results[i], '\n'))
  {
    var q := queries[i];
    var rest := Melt(queries[1..], results[1..]);
    RowsOfThenHitsFor(queries[0], Split(results[0], '\n'), rest, q);
    if i == 0 {
      MeltQueries(queries[1..], results[1..]);
      HitsForNone(rest, q);
    } else {
      UniqueInTail(queries, i);
      MeltRowsOfQuery(queries[1..], results[1..], i - 1);
    }
  }

  /** A query that occurs once, not first, occurs once in the tail. */
  lemma UniqueInTail(queries: seq<String>, i: nat)
    requires 0 < i < |queries|
    requires queries[i] !in queries[..i] && queries[i] !in queries[i + 1..]
    ensures queries[1..][i - 1] == queries[i] && queries[0] != queries[i]
    ensures queries[1..][i - 1] !in queries[1..][..i - 1] && queries[1..][i - 1] !in queries[1..][i..]
  {
    assert queries[0] == queries[..i][0];
    assert queries[1..][..i - 1] == queries[1..i];
    assert queries[1..][i..] == queries[i + 1..];
    assert queries[1..i] == queries[..i][1..];
  }

  /** A query asked once whose result is a single line, such as `Not found`,
      has exactly one row, holding that line. */
  lemma OneLineOneRow(queries: seq<String>, results: seq<String>, i: nat)
    requires |results| == |queries| && i < |queries|
    requires queries[i] !in queries[..i] && queries[i] !in queries[i + 1..]
    requires '\n' !in results[i]
    ensures HitsFor(Melt(queries, results), queries[i]) == [Hit(queries[i], results[i])]
  {
    MeltRowsOfQuery(queries, results, i);
    SplitWithoutSeparator(results[i], '\n');
  }

  /** `queryTerms`: the query list must not be empty and every request must
      succeed; then each query has at least one row and every row belongs to
      a query asked. */
  function QueryTerms(queries: seq<String>, organism: Option<String>, fetch: String -> Response)
    : (r: Result<seq<Hit>>)
    ensures r.Failure? <==> |queries| == 0 || SomeRefused(queries, organism, fetch)
    ensures r.Failure? ==> r.error == if |queries| == 0 then NoQueries else HttpError
    ensures r.Success? ==> forall h :: h in r.value ==> h.query in queries
    ensures r.Success? ==> forall i :: 0 <= i < |queries| ==> Covers(r.value, queries[i])
  {
    if |queries| == 0 then Failure(NoQueries)
    else
      SearchAllFails(queries, organism, fetch);
      match SearchAll(queries, organism, fetch)
      case Failure(e) => Failure(e)
      case Success(results) =>
        MeltQueries(queries, results);
        MeltCovers(queries, results);
        Success(Melt(queries, results))
  }

  /** `Not found` is a single line. */
  lemma NotFoundTextOneLine()
    ensures '\n' !in NotFoundText
  {
    assert NotFoundText == ['N', 'o', 't', ' ', 'f', 'o', 'u', 'n', 'd'];
  }

  /** End to end: when every request succeeds, a query asked once whose search
      body is blank has exactly one row, and its id is `Not found`. */
  lemma BlankSearchOneRow(queries: seq<String>, organism: Option<String>, fetch: String -> Response, i: nat)
    requires !SomeRefused(queries, organism, fetch)
    requires i < |queries|
    requires queries[i] !in queries[..i] && queries[i] !in queries[i + 1..]
    requires IsBlank(fetch(SearchTerm(queries[i], organism)).text)
    ensures QueryTerms(queries, organism, fetch).Success?
    ensures HitsFor(QueryTerms(queries, organism, fetch).value, queries[i]) == [Hit(queries[i], NotFoundText)]
  {
    SearchAllFails(queries, organism, fetch);
    var results := SearchAll(queries, organism, fetch).value;
    SearchAllResults(queries, organism, fetch);
    assert QueryUniprotId(queries[i], organism, fetch) == Success(results[i]);
    assert results[i] == NotFoundText;
    NotFoundTextOneLine();
    OneLineOneRow(queries, results, i);
  }
}
