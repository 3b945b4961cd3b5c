/**
 Merging the mapping response into the query table (proteinFinder.py:394-454):
 the response table's last column becomes the shared key, key cells holding
 several comma-separated identifiers are exploded into one row each, and the
 query table is outer-joined with the result on that key.
 */
module Merge {
  import opened Text
  import opened Base

  datatype Table = Table(columns: seq<String>, rows: seq<seq<String>>)

  predicate Rectangular(t: Table) {
    forall i :: 0 <= i < |t.rows| ==> |t.rows[i]| == |t.columns|
  }

  /** A table as the TSV reader returns it: one cell per column in every row. */
  type Frame = t: Table | Rectangular(t) witness Table([], [])

  /** A row split into its key cell and its other cells. */
  datatype KeyedRow = KeyedRow(key: String, cells: seq<String>)

  /** A table whose key column, labelled `keyLabel`, has been set apart. */
  datatype KeyedFrame = KeyedFrame(columns: seq<String>, keyLabel: String, rows: seq<KeyedRow>)

  function KeyLast(row: seq<String>): KeyedRow
    requires |row| > 0
  {
    KeyedRow(row[|row| - 1], row[..|row| - 1])
  }

  /** The rename in `processUniprotRes`: the last column becomes the key,
      labelled `idLabel`; a table without columns has no last column. */
  function RenameLastColumn(t: Frame, idLabel: String): (r: Result<KeyedFrame>)
    ensures r.Failure? <==> |t.columns| == 0
    ensures r.Failure? ==> r.error == NoColumns
    ensures r.Success? ==>
      && r.value.keyLabel == idLabel
      && r.value.columns + [t.columns[|t.columns| - 1]] == t.columns
      && |r.value.rows| == |t.rows|
      && forall i :: 0 <= i < |t.rows| ==> r.value.rows[i].cells + [r.value.rows[i].key] == t.rows[i]
  {
    if |t.columns| == 0 then Failure(NoColumns)
    else
      var rows := seq(|t.rows|, i requires 0 <= i < |t.rows| => KeyLast(t.rows[i]));
      assert forall i :: 0 <= i < |t.rows| ==> rows[i].cells + [rows[i].key] == t.rows[i];
      Success(KeyedFrame(t.columns[..|t.columns| - 1], idLabel, rows))
  }

  /** One row per key, all sharing `cells`. */
  function WithKeys(keys: seq<String>, cells: seq<String>): (out: seq<KeyedRow>)
    ensures |out| == |keys|
    ensures forall i :: 0 <= i < |keys| ==> out[i] == KeyedRow(keys[i], cells)
  {
    if |keys| == 0 then [] else [KeyedRow(keys[0], cells)] + WithKeys(keys[1..], cells)
  }

  function RowKeys(rows: seq<KeyedRow>): seq<String> {
    seq(|rows|, i requires 0 <= i < |rows| => rows[i].key)
  }

  /** `str.split(',')` of one key cell followed by the stack/join: a cell with
      k comma-separated values becomes k rows with the same other cells. */
  function ExplodeRow(r: KeyedRow): (out: seq<KeyedRow>)
    ensures |out| == Occurrences(r.key, ',') + 1
    ensures forall o :: o in out ==> o.cells == r.cells && ',' !in o.key
  {
    WithKeys(Split(r.key, ','), r.cells)
  }

  /** The exploded keys, joined back with commas, give the original cell. */
  lemma ExplodeRowRoundTrip(r: KeyedRow)
    ensures Join(RowKeys(ExplodeRow(r)), ',') == r.key
  {
    assert RowKeys(ExplodeRow(r)) == Split(r.key, ',');
    JoinSplit(r.key, ',');
  }

  /** Number of values across all key cells. */
  function KeyValues(rows: seq<KeyedRow>): nat {
    if |rows| == 0 then 0 else Occurrences(rows[0].key, ',') + 1 + KeyValues(rows[1..])
  }

  /** `explode` of the key column: one row per key value, so never fewer rows
      than before. */
  function Explode(rows: seq<KeyedRow>): (out: seq<KeyedRow>)
    ensures |out| == KeyValues(rows)
    ensures |out| >= |rows|
  {
    if |rows| == 0 then [] else ExplodeRow(rows[0]) + Explode(rows[1..])
  }

  /** An exploded row is one value of some row's key cell, with that row's
      other cells; and every such value is present. */
  lemma {:induction false} ExplodeMembers(rows: seq<KeyedRow>, o: KeyedRow)
    ensures o in Explode(rows) <==>
      exists i :: 0 <= i < |rows| && o.cells == rows[i].cells && o.key in Split(rows[i].key, ',')
  {
    if |rows| > 0 {
      ExplodeMembers(rows[1..], o);
      var ks := Split(rows[0].key, ',');
      assert o in ExplodeRow(rows[0]) <==> o.cells == rows[0].cells && o.key in ks by {
        if o.cells == rows[0].cells && o.key in ks {
          var k :| 0 <= k < |ks| && ks[k] == o.key;
          assert ExplodeRow(rows[0])[k] == o;
        }
      }
      if exists i :: 1 <= i < |rows| && o.cells == rows[i].cells && o.key in Split(rows[i].key, ',') {
        var i :| 1 <= i < |rows| && o.cells == rows[i].cells && o.key in Split(rows[i].key, ',');
        assert rows[1..][i - 1] == rows[i];
      }
    }
  }

  /** A row of the outer merge: the key, the query table's other cells (None
      where no query row matched) and the response's other cells (None where
      no response row matched). */
  datatype Joined = Joined(key: String, query: Option<seq<String>>, annotation: Option<seq<String>>)

  /** Some merged row carries query row `l` under its key. */
  predicate QueryRowKept(out: seq<Joined>, l: KeyedRow) {
    exists x :: x in out && x.key == l.key && x.query == Some(l.cells)
  }

  /** Some merged row carries response row `r` under its key. */
  predicate ResponseRowKept(out: seq<Joined>, r: KeyedRow) {
    exists x :: x in out && x.key == r.key && x.annotation == Some(r.cells)
  }

  predicate HasKey(rows: seq<KeyedRow>, k: String) {
    exists i :: 0 <= i < |rows| && rows[i].key == k
  }

  /** The rows of `right` whose key is `k`, in order. */
  function Matches(k: String, right: seq<KeyedRow>): seq<KeyedRow> {
    if |right| == 0 then []
    else (if right[0].key == k then [right[0]] else []) + Matches(k, right[1..])
  }

  /** `Matches` keeps exactly the rows with key `k`, as often as they occur. */
  lemma {:induction false} MatchesCount(k: String, right: seq<KeyedRow>, r: KeyedRow)
    ensures multiset(Matches(k, right))[r] == if r.key == k then multiset(right)[r] else 0
  {
    if |right| > 0 {
      assert right == [right[0]] + right[1..];
      MatchesCount(k, right[1..], r);
    }
  }

  /** Nothing matches exactly when no row has key `k`. */
  lemma {:induction false} MatchesEmpty(k: String, right: seq<KeyedRow>)
    ensures |Matches(k, right)| == 0 <==> !HasKey(right, k)
  {
    if |right| > 0 {
      MatchesEmpty(k, right[1..]);
      if HasKey(right[1..], k) {
        var i :| 0 <= i < |right[1..]| && right[1..][i].key == k;
        assert right[i + 1].key == k;
      }
      if HasKey(right, k) && right[0].key != k {
        var i :| 0 <= i < |right| && right[i].key == k;
        assert right[1..][i - 1].key == k;
      }
    }
  }

  /** One merged row per matching response row. */
  function Pairs(l: KeyedRow, m: seq<KeyedRow>): seq<Joined> {
    if |m| == 0 then []
    else [Joined(l.key, Some(l.cells), Some(m[0].cells))] + Pairs(l, m[1..])
  }

  /** The merged rows of one query row: its matches, or itself with empty
      annotation when nothing matches. */
  function LeftBlock(l: KeyedRow, right: seq<KeyedRow>): seq<Joined> {
    var m := Matches(l.key, right);
    if |m| == 0 then [Joined(l.key, Some(l.cells), None)] else Pairs(l, m)
  }

  function LeftSide(left: seq<KeyedRow>, right: seq<KeyedRow>): seq<Joined> {
    if |left| == 0 then [] else LeftBlock(left[0], right) + LeftSide(left[1..], right)
  }

  /** The response rows no query row matches, with an empty query. */
  function RightOnly(left: seq<KeyedRow>, right: seq<KeyedRow>): seq<Joined> {
    if |right| == 0 then []
    else
      (if HasKey(left, right[0].key) then [] else [Joined(right[0].key, None, Some(right[0].cells))])
      + RightOnly(left, right[1..])
  }

  /** `queryDf.merge(responseDf, on=idLabel, how='outer')`, up to row order. */
  function OuterJoin(left: seq<KeyedRow>, right: seq<KeyedRow>): seq<Joined> {
    LeftSide(left, right) + RightOnly(left, right)
  }

  /** How often an outer join must contain each row: every matching
      (query row, response row) pair once; an unmatched query row as often as
      it occurs, with empty annotation; an unmatched response row as often as
      it occurs, with empty query; nothing else. */
  ghost function JoinCount(left: seq<KeyedRow>, right: seq<KeyedRow>, j: Joined): nat {
    match j
    case Joined(k, Some(a), Some(b)) => multiset(left)[KeyedRow(k, a)] * multiset(right)[KeyedRow(k, b)]
    case Joined(k, Some(a), None) => if HasKey(right, k) then 0 else multiset(left)[KeyedRow(k, a)]
    case Joined(k, None, Some(b)) => if HasKey(left, k) then 0 else multiset(right)[KeyedRow(k, b)]
    case Joined(_, None, None) => 0
  }

  lemma {:induction false} PairsCount(l: KeyedRow, m: seq<KeyedRow>, j: Joined)
    requires forall r :: r in m ==> r.key == l.key
    ensures multiset(Pairs(l, m))[j] ==
      if j.key == l.key && j.query == Some(l.cells) && j.annotation.Some?
      then multiset(m)[KeyedRow(l.key, j.annotation.value)] else 0
  {
    if |m| > 0 {
      assert m == [m[0]] + m[1..];
      PairsCount(l, m[1..], j);
    }
  }

  lemma {:induction false} MatchesKeys(k: String, right: seq<KeyedRow>)
    ensures forall r :: r in Matches(k, right) ==> r.key == k
  {
    if |right| > 0 {
      MatchesKeys(k, right[1..]);
    }
  }

  /** Count of a matched pair in one query row's block. */
  lemma LeftBlockPairCount(l: KeyedRow, right: seq<KeyedRow>, k: String, a: seq<String>, b: seq<String>)
    ensures multiset(LeftBlock(l, right))[Joined(k, Some(a), Some(b))] ==
      if l == KeyedRow(k, a) then multiset(right)[KeyedRow(k, b)] else 0
  {
    var m := Matches(l.key, right);
    MatchesKeys(l.key, right);
    MatchesCount(l.key, right, KeyedRow(k, b));
    MatchesEmpty(l.key, right);
    PairsCount(l, m, Joined(k, Some(a), Some(b)));
    if |m| == 0 && l == KeyedRow(k, a) {
      assert KeyedRow(k, b) !in right;
    }
  }

  /** Count of an unmatched query row in one query row's block. */
  lemma LeftBlockAloneCount(l: KeyedRow, right: seq<KeyedRow>, k: String, a: seq<String>)
    ensures multiset(LeftBlock(l, right))[Joined(k, Some(a), None)] ==
      if l == KeyedRow(k, a) && !HasKey(right, k) then 1 else 0
  {
    var m := Matches(l.key, right);
    MatchesKeys(l.key, right);
    MatchesEmpty(l.key, right);
    PairsCount(l, m, Joined(k, Some(a), None));
  }

  /** Every row of a query row's block carries that query row. */
  lemma LeftBlockQuery(l: KeyedRow, right: seq<KeyedRow>)
    ensures forall x :: x in LeftBlock(l, right) ==> x.query == Some(l.cells) && x.key == l.key
  {
    var m := Matches(l.key, right);
    forall x | x in LeftBlock(l, right) ensures x.query == Some(l.cells) && x.key == l.key {
      if |m| > 0 {
        MatchesKeys(l.key, right);
        PairsCount(l, m, x);
        assert multiset(Pairs(l, m))[x] > 0;
      }
    }
  }

  lemma {:induction false} LeftSidePairCount(left: seq<KeyedRow>, right: seq<KeyedRow>,
                                             k: String, a: seq<String>, b: seq<String>)
    ensures multiset(LeftSide(left, right))[Joined(k, Some(a), Some(b))]
      == multiset(left)[KeyedRow(k, a)] * multiset(right)[KeyedRow(k, b)]
  {
    var j := Joined(k, Some(a), Some(b));
    var c := multiset(right)[KeyedRow(k, b)];
    if |left| > 0 {
      LeftSideUnfold(left, right, j);
      MultisetHead(left, KeyedRow(k, a));
      LeftBlockPairCount(left[0], right, k, a, b);
      LeftSidePairCount(left[1..], right, k, a, b);
      Distribute(if left[0] == KeyedRow(k, a) then 1 else 0, multiset(left[1..])[KeyedRow(k, a)], c);
    }
  }

  /** The merged rows of the first query row, then those of the others. */
  lemma LeftSideUnfold(left: seq<KeyedRow>, right: seq<KeyedRow>, j: Joined)
    requires |left| > 0
    ensures multiset(LeftSide(left, right))[j]
      == multiset(LeftBlock(left[0], right))[j] + multiset(LeftSide(left[1..], right))[j]
  {
  }

  lemma MultisetHead<T>(s: seq<T>, x: T)
    requires |s| > 0
    ensures multiset(s)[x] == (if s[0] == x then 1 else 0) + multiset(s[1..])[x]
  {
    assert s == [s[0]] + s[1..];
  }

  lemma Distribute(x: nat, y: nat, c: nat)
    ensures (x + y) * c == x * c + y * c
  {
  }

  lemma {:induction false} LeftSideAloneCount(left: seq<KeyedRow>, right: seq<KeyedRow>, k: String, a: seq<String>)
    ensures multiset(LeftSide(left, right))[Joined(k, Some(a), None)]
      == if HasKey(right, k) then 0 else multiset(left)[KeyedRow(k, a)]
  {
    if |left| > 0 {
      LeftSideUnfold(left, right, Joined(k, Some(a), None));
      MultisetHead(left, KeyedRow(k, a));
      LeftBlockAloneCount(left[0], right, k, a);
      LeftSideAloneCount(left[1..], right, k, a);
    }
  }

  /** Each query row's block is part of the left side. */
  lemma {:induction false} LeftSideHasBlock(left: seq<KeyedRow>, right: seq<KeyedRow>, i: nat)
    requires i < |left|
    ensures forall x :: x in LeftBlock(left[i], right) ==> x in LeftSide(left, right)
  {
    if i > 0 {
      assert left[1..][i - 1] == left[i];
      LeftSideHasBlock(left[1..], right, i - 1);
    }
  }

  /** The left side carries a query in every row. */
  lemma {:induction false} LeftSideQuery(left: seq<KeyedRow>, right: seq<KeyedRow>)
    ensures forall x :: x in LeftSide(left, right) ==> x.query.Some?
  {
    if |left| > 0 {
      LeftBlockQuery(left[0], right);
      LeftSideQuery(left[1..], right);
    }
  }

  lemma {:induction false} RightOnlyCount(left: seq<KeyedRow>, right: seq<KeyedRow>, j: Joined)
    ensures multiset(RightOnly(left, right))[j] ==
      if j.query.None? && j.annotation.Some? && !HasKey(left, j.key)
      then multiset(right)[KeyedRow(j.key, j.annotation.value)] else 0
  {
    if |right| > 0 {
      assert right == [right[0]] + right[1..];
      RightOnlyCount(left, right[1..], j);
    }
  }

  /** The outer join holds each row exactly as often as `JoinCount` says. */
  lemma OuterJoinCounts(left: seq<KeyedRow>, right: seq<KeyedRow>, j: Joined)
    ensures multiset(OuterJoin(left, right))[j] == JoinCount(left, right, j)
  {
    RightOnlyCount(left, right, j);
    match j
    case Joined(k, Some(a), Some(b)) =>
      LeftSidePairCount(left, right, k, a, b);
    case Joined(k, Some(a), None) =>
      LeftSideAloneCount(left, right, k, a);
    case Joined(k, None, _) =>
      LeftSideQuery(left, right);
      assert j !in LeftSide(left, right);
  }

  /** Every query row survives the merge: with each matching response row, or
      with an empty annotation when none matches. */
  lemma OuterJoinKeepsLeft(left: seq<KeyedRow>, right: seq<KeyedRow>, i: nat)
    requires i < |left|
    ensures QueryRowKept(OuterJoin(left, right), left[i])
  {
    var block := LeftBlock(left[i], right);
    LeftSideHasBlock(left, right, i);
    LeftBlockQuery(left[i], right);
    assert |block| > 0 by {
      var m := Matches(left[i].key, right);
      if |m| > 0 {
        assert Pairs(left[i], m)[0] in Pairs(left[i], m);
      }
    }
    assert block[0] in OuterJoin(left, right);
    assert block[0].key == left[i].key && block[0].query == Some(left[i].cells);
  }

  lemma {:induction false} PairsHas(l: KeyedRow, m: seq<KeyedRow>, r: KeyedRow)
    requires r in m
    ensures Joined(l.key, Some(l.cells), Some(r.cells)) in Pairs(l, m)
  {
    if m[0] != r {
      PairsHas(l, m[1..], r);
    }
  }

  lemma {:induction false} RightOnlyHas(left: seq<KeyedRow>, right: seq<KeyedRow>, i: nat)
    requires i < |right| && !HasKey(left, right[i].key)
    ensures Joined(right[i].key, None, Some(right[i].cells)) in RightOnly(left, right)
  {
    if i > 0 {
      assert right[1..][i - 1] == right[i];
      RightOnlyHas(left, right[1..], i - 1);
    }
  }

  /** Every response row survives the merge: with each matching query row, or
      with an empty query when none matches. */
  lemma OuterJoinKeepsRight(left: seq<KeyedRow>, right: seq<KeyedRow>, i: nat)
    requires i < |right|
    ensures ResponseRowKept(OuterJoin(left, right), right[i])
  {
    var r := right[i];
    if HasKey(left, r.key) {
      var k :| 0 <= k < |left| && left[k].key == r.key;
      var m := Matches(r.key, right);
      MatchesCount(r.key, right, r);
      assert multiset(right)[r] > 0;
      assert r in m;
      PairsHas(left[k], m, r);
      LeftSideHasBlock(left, right, k);
      var x := Joined(r.key, Some(left[k].cells), Some(r.cells));
      assert x in LeftSide(left, right);
      assert x in OuterJoin(left, right);
    } else {
      RightOnlyHas(left, right, i);
      var x := Joined(r.key, None, Some(r.cells));
      assert x in OuterJoin(left, right);
    }
  }

  /** Every query row of the merge input appears in its output. */
  lemma {:induction false} OuterJoinKeepsEveryLeft(left: seq<KeyedRow>, right: seq<KeyedRow>)
    ensures forall i :: 0 <= i < |left| ==>
      QueryRowKept(OuterJoin(left, right), left[i])
  {
    forall i | 0 <= i < |left|
      ensures QueryRowKept(OuterJoin(left, right), left[i])
    {
      OuterJoinKeepsLeft(left, right, i);
    }
  }

  /** Every response row of the merge input appears in its output. */
  lemma {:induction false} OuterJoinKeepsEveryRight(left: seq<KeyedRow>, right: seq<KeyedRow>)
    ensures forall i :: 0 <= i < |right| ==>
      ResponseRowKept(OuterJoin(left, right), right[i])
  {
    forall i | 0 <= i < |right|
      ensures ResponseRowKept(OuterJoin(left, right), right[i])
    {
      OuterJoinKeepsRight(left, right, i);
    }
  }

  /** `matchQueryWithResponse`: explode the response's key cells, then outer
      join the query rows with them. A response without rows is refused: the
      column `.apply(pd.Series, 1)` builds from it is a Series, which has no
      `stack`. */
  function MatchQueryWithResponse(left: seq<KeyedRow>, response: KeyedFrame): (r: Result<seq<Joined>>)
    ensures r.Failure? <==> |response.rows| == 0
    ensures r.Failure? ==> r.error == NoResponseRows
    ensures r.Success? ==> forall j :: multiset(r.value)[j] == JoinCount(left, Explode(response.rows), j)
    ensures r.Success? ==> forall i :: 0 <= i < |left| ==>
      QueryRowKept(r.value, left[i])
    ensures r.Success? ==> forall i :: 0 <= i < |Explode(response.rows)| ==>
      ResponseRowKept(r.value, Explode(response.rows)[i])
  {
    if |response.rows| == 0 then Failure(NoResponseRows)
    else
      var out := OuterJoin(left, Explode(response.rows));
      OuterJoinKeepsEveryLeft(left, Explode(response.rows));
      OuterJoinKeepsEveryRight(left, Explode(response.rows));
      assert forall j :: multiset(out)[j] == JoinCount(left, Explode(response.rows), j) by {
        forall j ensures multiset(out)[j] == JoinCount(left, Explode(response.rows), j) {
          OuterJoinCounts(left, Explode(response.rows), j);
        }
      }
      Success(out)
  }

  /** `processUniprotRes` after the TSV body has been read into a frame: rename
      the last column to `idLabel`, then merge; every query row survives. */
  function ProcessUniprotRes(response: Frame, left: seq<KeyedRow>, idLabel: String): (r: Result<seq<Joined>>)
    ensures r.Failure? <==> |response.columns| == 0 || |response.rows| == 0
    ensures r.Failure? ==> r.error == if |response.columns| == 0 then NoColumns else NoResponseRows
    ensures r.Success? ==> forall i :: 0 <= i < |left| ==>
      QueryRowKept(r.value, left[i])
    ensures r.Success? ==> forall j ::
      multiset(r.value)[j] == JoinCount(left, Explode(RenameLastColumn(response, idLabel).value.rows), j)
  {
    match RenameLastColumn(response, idLabel)
    case Failure(e) => Failure(e)
    case Success(keyed) => MatchQueryWithResponse(left, keyed)
  }
}
