/**
 Values shared by every stage: the errors the tool raises, a result type that
 carries them instead of exceptions, an HTTP response reduced to what the tool
 inspects, and the two-column (query, identifier) row.
 */
module Base {
  import opened Text

  datatype Option<+T> = None | Some(value: T)

  /** The exceptions the tool raises, one constructor per kind of failure. */
  datatype Error =
    | RowWithoutCells     // `row[0]` on an input row with no cells (IndexError)
    | NoDataLoaded        // readQueryFile: no non-empty query string
    | LengthMismatch      // getNcbiIdFromResponse: `len(resLst) == len(queryLst)` fails
    | NoQueries           // queryNcbiDb / queryTerms: `queryLstLength != 0` fails
    | HttpError           // `raise_for_status()` on a response that is not ok
    | NoMatchingResults   // mapRetrieveUniprot: ok response with a blank body
    | MissingIdType       // main block: `--idType` given as the empty string
    | NoColumns           // processUniprotRes: `columns[-1]` of a table without columns
    | NoResponseRows      // matchQueryWithResponse: `.stack()` on the Series that
                          // `.apply(pd.Series, 1)` returns for a table without rows

  datatype Result<+T> = Success(value: T) | Failure(error: Error)

  /** An HTTP response as the tool sees it: `response.ok` and `response.text`. */
  datatype Response = Response(ok: bool, text: String)

  /** One row of a (query, identifier) table. */
  datatype Hit = Hit(query: String, id: String)

  /** One row per identifier, all carrying `query`, in identifier order. */
  function RowsOf(query: String, ids: seq<String>): (rows: seq<Hit>)
    ensures |rows| == |ids|
    ensures forall i :: 0 <= i < |ids| ==> rows[i] == Hit(query, ids[i])
  {
    if |ids| == 0 then [] else [Hit(query, ids[0])] + RowsOf(query, ids[1..])
  }

  /** Some row of `rows` belongs to query `q`. */
  predicate Covers(rows: seq<Hit>, q: String) {
    exists h :: h in rows && h.query == q
  }

  /** The rows of `rows` whose query is `q`, in order. */
  function HitsFor(rows: seq<Hit>, q: String): (r: seq<Hit>)
    ensures forall h :: h in r <==> h in rows && h.query == q
  {
    if |rows| == 0 then []
    else (if rows[0].query == q then [rows[0]] else []) + HitsFor(rows[1..], q)
  }

  lemma {:induction false} HitsForAppend(a: seq<Hit>, b: seq<Hit>, q: String)
    ensures HitsFor(a + b, q) == HitsFor(a, q) + HitsFor(b, q)
  {
    if |a| > 0 {
      assert (a + b)[1..] == a[1..] + b;
      HitsForAppend(a[1..], b, q);
    } else {
      assert a + b == b;
    }
  }

  /** Rows that all belong to other queries contribute nothing. */
  lemma {:induction false} HitsForNone(rows: seq<Hit>, q: String)
    requires forall h :: h in rows ==> h.query != q
    ensures HitsFor(rows, q) == []
  {
    if |rows| > 0 {
      assert rows[0] in rows;
      HitsForNone(rows[1..], q);
    }
  }

  /** Selecting one query's rows out of one query's block: all or nothing. */
  lemma {:induction false} HitsForRowsOf(query: String, ids: seq<String>, q: String)
    ensures HitsFor(RowsOf(query, ids), q) == if query == q then RowsOf(query, ids) else []
  {
    if |ids| > 0 {
      HitsForRowsOf(query, ids[1..], q);
    }
  }

  /** The rows of `q` in a block of `query` rows followed by other rows. */
  lemma RowsOfThenHitsFor(query: String, ids: seq<String>, rest: seq<Hit>, q: String)
    ensures HitsFor(RowsOf(query, ids) + rest, q)
      == (if query == q then RowsOf(query, ids) else []) + HitsFor(rest, q)
  {
    HitsForAppend(RowsOf(query, ids), rest, q);
    HitsForRowsOf(query, ids, q);
  }
}
