/**
 The NCBI stage (proteinFinder.py:90-241): one esearch request per query,
 each response already decoded to its `idlist`; the id lists are gathered into
 a dict keyed by query and flattened into (query, id) rows.
 */
module Ncbi {
  import opened Text
  import opened Base
  import opened OrderedDict

  /** The id recorded for a query whose search found nothing. */
  const NotFound: String := "Not Found"

  /** `queryNcbiDb`: one esearch per query, in order; the query list must not be
      empty. `esearch(term, db)` is the decoded `idlist` of the response. */
  function QueryNcbiDb(queries: seq<String>, db: String, esearch: (String, String) -> seq<String>)
    : (r: Result<seq<seq<String>>>)
    ensures r.Failure? <==> |queries| == 0
    ensures r.Failure? ==> r.error == NoQueries
    ensures r.Success? ==>
      |r.value| == |queries| && forall i :: 0 <= i < |queries| ==> r.value[i] == esearch(queries[i], db)
  {
    if |queries| == 0 then Failure(NoQueries)
    else Success(seq(|queries|, i requires 0 <= i < |queries| => esearch(queries[i], db)))
  }

  /** The id list kept for one response: an empty `idlist` becomes the
      one-element placeholder list, any other passes through unchanged. */
  function IdsOrPlaceholder(idlist: seq<String>): (ids: seq<String>)
    ensures ids != []
    ensures idlist != [] ==> ids == idlist
    ensures idlist == [] ==> ids == [NotFound]
  {
    if idlist == [] then [NotFound] else idlist
  }

  /** The id list each decoded response contributes, in response order. */
  function IdLists(responses: seq<seq<String>>): (lists: seq<seq<String>>)
    ensures |lists| == |responses|
    ensures forall i :: 0 <= i < |lists| ==> lists[i] == IdsOrPlaceholder(responses[i])
  {
    if |responses| == 0 then [] else [IdsOrPlaceholder(responses[0])] + IdLists(responses[1..])
  }

  /** `getNcbiIdFromResponse`: the lengths must agree; the result is
      `dict(zip(queryLst, idsLst))`, one entry per distinct query, none empty. */
  function GetNcbiIds(responses: seq<seq<String>>, queries: seq<String>)
    : (r: Result<seq<(String, seq<String>)>>)
    ensures r.Failure? <==> |responses| != |queries|
    ensures r.Failure? ==> r.error == LengthMismatch
    ensures r.Success? ==> DistinctKeys(r.value)
    ensures r.Success? ==> forall q :: q in KeysOf(r.value) <==> q in queries
    ensures r.Success? ==> forall i :: 0 <= i < |r.value| ==> r.value[i].1 != []
  {
    if |responses| != |queries| then Failure(LengthMismatch)
    else
      ZipKeys(queries, IdLists(responses));
      DictOfIdListsNonEmpty(Zip(queries, IdLists(responses)));
      Success(FromPairs(Zip(queries, IdLists(responses))))
  }

  /** No id list in the dict is empty, since none of the zipped lists is. */
  lemma DictOfIdListsNonEmpty(pairs: seq<(String, seq<String>)>)
    requires forall i :: 0 <= i < |pairs| ==> pairs[i].1 != []
    ensures forall i :: 0 <= i < |FromPairs(pairs)| ==> FromPairs(pairs)[i].1 != []
  {
    var d := FromPairs(pairs);
    forall i | 0 <= i < |d| ensures d[i].1 != [] {
      assert d[i] in pairs;
    }
  }

  /** A repeated query keeps the ids of its last response. */
  lemma NcbiLastOccurrenceWins(responses: seq<seq<String>>, queries: seq<String>, q: String)
    requires |responses| == |queries| && q in queries
    ensures Get(GetNcbiIds(responses, queries).value, q)
      == Some(IdsOrPlaceholder(responses[LastIndex(queries, q)]))
  {
    var pairs := Zip(queries, IdLists(responses));
    LastValueZip(queries, IdLists(responses), q);
    FromPairsLastWins(pairs, q);
  }

  /** The dict lists each query once, at the position where it was first
      asked. */
  lemma NcbiFirstSeenOrder(responses: seq<seq<String>>, queries: seq<String>)
    requires |responses| == |queries|
    ensures FirstSeenOrder(KeysOf(GetNcbiIds(responses, queries).value), queries)
  {
    var pairs := Zip(queries, IdLists(responses));
    assert KeysOf(pairs) == queries;
    FromPairsFirstSeenOrder(pairs);
  }

  /** With distinct queries nothing collapses: entry i is query i with the ids
      of response i. */
  lemma NcbiDistinctQueries(responses: seq<seq<String>>, queries: seq<String>)
    requires |responses| == |queries|
    requires forall i, j :: 0 <= i < j < |queries| ==> queries[i] != queries[j]
    ensures |GetNcbiIds(responses, queries).value| == |queries|
    ensures forall i :: 0 <= i < |queries| ==>
      GetNcbiIds(responses, queries).value[i] == (queries[i], IdsOrPlaceholder(responses[i]))
  {
    var pairs := Zip(queries, IdLists(responses));
    FromPairsOfDistinct(pairs);
  }

  /** The number of ids in all lists of the dict together. */
  function TotalIds(d: seq<(String, seq<String>)>): nat {
    if |d| == 0 then 0 else |d[0].1| + TotalIds(d[1..])
  }

  /** `saveNcbiIDs` row construction: for each entry in dict order, one row per
      id, in id order; so the row count is the sum of the list lengths. */
  function SaveNcbiIds(d: seq<(String, seq<String>)>): (rows: seq<Hit>)
    ensures |rows| == TotalIds(d)
  {
    if |d| == 0 then [] else RowsOf(d[0].0, d[0].1) + SaveNcbiIds(d[1..])
  }

  /** Flattening respects the dict order: it distributes over concatenation. */
  lemma {:induction false} SaveNcbiIdsAppend(d1: seq<(String, seq<String>)>, d2: seq<(String, seq<String>)>)
    ensures SaveNcbiIds(d1 + d2) == SaveNcbiIds(d1) + SaveNcbiIds(d2)
  {
    if |d1| == 0 {
      assert d1 + d2 == d2;
    } else {
      assert (d1 + d2)[1..] == d1[1..] + d2;
      SaveNcbiIdsAppend(d1[1..], d2);
    }
  }

  /** A row (q, v) is produced exactly when some entry for q lists v. */
  lemma {:induction false} SaveNcbiIdsMembers(d: seq<(String, seq<String>)>, q: String, v: String)
    ensures Hit(q, v) in SaveNcbiIds(d) <==> exists i :: 0 <= i < |d| && d[i].0 == q && v in d[i].1
  {
    if |d| > 0 {
      SaveNcbiIdsMembers(d[1..], q, v);
      var rows := RowsOf(d[0].0, d[0].1);
      assert Hit(q, v) in rows <==> d[0].0 == q && v in d[0].1;
      if exists i :: 1 <= i < |d| && d[i].0 == q && v in d[i].1 {
        var i :| 1 <= i < |d| && d[i].0 == q && v in d[i].1;
        assert d[1..][i - 1] == d[i];
      }
    }
  }

  /** In a dict whose lists are non-empty every key yields at least one row. */
  lemma SaveNcbiIdsCoversKeys(d: seq<(String, seq<String>)>, q: String)
    requires forall i :: 0 <= i < |d| ==> d[i].1 != []
    requires q in KeysOf(d)
    ensures Covers(SaveNcbiIds(d), q)
  {
    var i :| 0 <= i < |d| && d[i].0 == q;
    SaveNcbiIdsMembers(d, q, d[i].1[0]);
    assert Hit(q, d[i].1[0]) in SaveNcbiIds(d);
  }

  /** The rows of one key are exactly that key's id list, in order. */
  lemma {:induction false} SaveNcbiIdsRowsOfKey(d: seq<(String, seq<String>)>, i: nat)
    requires DistinctKeys(d) && i < |d|
    ensures HitsFor(SaveNcbiIds(d), d[i].0) == RowsOf(d[i].0, d[i].1)
  {
    var q := d[i].0;
    HitsForAppend(RowsOf(d[0].0, d[0].1), SaveNcbiIds(d[1..]), q);
    HitsForRowsOf(d[0].0, d[0].1, q);
    if i == 0 {
      HitsForAbsent(d[1..], q);
    } else {
      assert d[1..][i - 1] == d[i];
      SaveNcbiIdsRowsOfKey(d[1..], i - 1);
    }
  }

  /** A key that no entry carries has no rows. */
  lemma {:induction false} HitsForAbsent(d: seq<(String, seq<String>)>, q: String)
    requires forall j :: 0 <= j < |d| ==> d[j].0 != q
    ensures HitsFor(SaveNcbiIds(d), q) == []
  {
    if |d| > 0 {
      HitsForAppend(RowsOf(d[0].0, d[0].1), SaveNcbiIds(d[1..]), q);
      HitsForRowsOf(d[0].0, d[0].1, q);
      HitsForAbsent(d[1..], q);
    }
  }

  /** End to end for one query: when its last response had an empty `idlist`,
      the table holds exactly one row for it, with the placeholder id. */
  lemma NotFoundQueryOneRow(responses: seq<seq<String>>, queries: seq<String>, q: String)
    requires |responses| == |queries| && q in queries
    requires responses[LastIndex(queries, q)] == []
    ensures HitsFor(SaveNcbiIds(GetNcbiIds(responses, queries).value), q) == [Hit(q, NotFound)]
  {
    var d := GetNcbiIds(responses, queries).value;
    NcbiLastOccurrenceWins(responses, queries, q);
    var i := FirstIndex(KeysOf(d), q);
    assert d[i] == (q, [NotFound]);
    SaveNcbiIdsRowsOfKey(d, i);
  }

  /** End to end: every query read yields at least one row. */
  lemma EveryQueryHasRow(responses: seq<seq<String>>, queries: seq<String>, q: String)
    requires |responses| == |queries| && q in queries
    ensures Covers(SaveNcbiIds(GetNcbiIds(responses, queries).value), q)
  {
    SaveNcbiIdsCoversKeys(GetNcbiIds(responses, queries).value, q);
  }

  /** The table's queries are exactly the queries searched: each has a row and
      no row carries another. */
  lemma NcbiRowsMatchQueries(responses: seq<seq<String>>, queries: seq<String>)
    requires |responses| == |queries|
    ensures forall q :: q in queries ==> Covers(SaveNcbiIds(GetNcbiIds(responses, queries).value), q)
    ensures forall h :: h in SaveNcbiIds(GetNcbiIds(responses, queries).value) ==> h.query in queries
  {
    forall q | q in queries ensures Covers(SaveNcbiIds(GetNcbiIds(responses, queries).value), q) {
      EveryQueryHasRow(responses, queries, q);
    }
    forall h | h in SaveNcbiIds(GetNcbiIds(responses, queries).value) ensures h.query in queries {
      RowQueryIsKey(GetNcbiIds(responses, queries).value, h);
    }
  }

  /** A row's query is a key of the dict it was flattened from. */
  lemma RowQueryIsKey(d: seq<(String, seq<String>)>, h: Hit)
    requires h in SaveNcbiIds(d)
    ensures h.query in KeysOf(d)
  {
    SaveNcbiIdsMembers(d, h.query, h.id);
    var i :| 0 <= i < |d| && d[i].0 == h.query && h.id in d[i].1;
    assert KeysOf(d)[i] == d[i].0;
  }
}
