/**
 The listing of the harvest record table (`read_registros`): every row, the
 most recently registered first, with the loss ratio shown as a percentage.
 Rows with equal timestamps may come in either order; the model fixes one.
 */
module Listing {
  import opened Harvest
  import opened Registry

  /** A row as the listing returns it. */
  datatype Row = Row(
    producer: string,
    area: real,
    volume: real,
    lossPercent: real,
    efficiency: Efficiency,
    registeredAt: int)

  /** The listing's result: the query failed, the table is empty, the rows,
      or the program stopped while printing them. */
  datatype Listed = QueryError | NoRecords | Rows(rows: seq<Row>) | Aborted

  /** Every row has a non-empty producer name. An empty name is stored as
      NULL, and formatting NULL as a padded text raises an error that the
      listing does not catch. */
  predicate Named(t: Table) {
    forall i :: 0 <= i < |t| ==> t[i].producer != ""
  }

  /** How a record is shown: its loss scaled by 100, everything else as stored. */
  function Display(rec: Record): Row {
    Row(rec.producer, rec.area, rec.volume, rec.loss * 100.0, rec.efficiency, rec.registeredAt)
  }

  function DisplayAll(t: Table): seq<Row> {
    seq(|t|, i requires 0 <= i < |t| => Display(t[i]))
  }

  /** A stored record, updated or not, shows a percentage between 0 and 100
      with at most one decimal. */
  lemma DisplayPercentBounds(rec: Record)
    requires Stored(rec)
    ensures 0.0 <= Display(rec).lossPercent <= 100.0
    ensures (Display(rec).lossPercent * 10.0).Floor as real == Display(rec).lossPercent * 10.0
  {
    assert Display(rec).lossPercent * 10.0 == rec.loss * 1000.0;
  }

  /** Every row the listing shows has a percentage between 0 and 100. */
  lemma ListedPercentBounds(t: Table, db: Db)
    requires AllStored(t)
    ensures List(t, db).Rows? ==>
      forall k :: 0 <= k < |List(t, db).rows| ==> 0.0 <= List(t, db).rows[k].lossPercent <= 100.0
  {
    var l := List(t, db);
    if l.Rows? {
      forall k | 0 <= k < |l.rows|
        ensures 0.0 <= l.rows[k].lossPercent <= 100.0
      {
        assert l.rows[k] in multiset(DisplayAll(t));
        var i :| 0 <= i < |t| && DisplayAll(t)[i] == l.rows[k];
        DisplayPercentBounds(t[i]);
      }
    }
  }

  /** Timestamps never increase along s. */
  predicate NewestFirst(s: seq<Row>) {
    forall i, j :: 0 <= i < j < |s| ==> s[i].registeredAt >= s[j].registeredAt
  }

  /** Puts x into a newest-first sequence at its place. */
  function InsertByTime(x: Row, s: seq<Row>): (r: seq<Row>)
    requires NewestFirst(s)
    ensures NewestFirst(r)
    ensures multiset(r) == multiset(s) + multiset{x}
    ensures |r| == |s| + 1
    ensures r[0] == x || (|s| > 0 && r[0] == s[0])
  {
    if |s| == 0 then [x]
    else if x.registeredAt >= s[0].registeredAt then [x] + s
    else
      var rest := InsertByTime(x, s[1..]);
      assert s == [s[0]] + s[1..];
      assert s[0].registeredAt >= rest[0].registeredAt;
      [s[0]] + rest
  }

  /** The rows of s, newest first. */
  function SortByTime(s: seq<Row>): (r: seq<Row>)
    ensures NewestFirst(r)
    ensures multiset(r) == multiset(s)
  {
    if |s| == 0 then []
    else
      assert s == [s[0]] + s[1..];
      InsertByTime(s[0], SortByTime(s[1..]))
  }

  /** Lists the table: every row exactly once, newest first, loss in percent;
      an empty table is reported apart from a failing query, and a row
      without a producer name stops the program. */
  function List(t: Table, db: Db): (r: Listed)
    ensures db == Unreachable ==> r == QueryError
    ensures db == Reachable ==> (r == NoRecords <==> |t| == 0)
    ensures db == Reachable && |t| > 0 ==> (r.Rows? <==> Named(t))
    ensures db == Reachable && |t| > 0 ==> (r == Aborted <==> !Named(t))
    ensures r.Rows? ==> |r.rows| == |t| && NewestFirst(r.rows)
    ensures r.Rows? ==> multiset(r.rows) == multiset(DisplayAll(t))
  {
    match db
    case Unreachable => QueryError
    case Reachable =>
      if |t| == 0 then NoRecords
      else if !Named(t) then Aborted
      else
        var rows := SortByTime(DisplayAll(t));
        assert |rows| == |multiset(rows)| == |t|;
        Rows(rows)
  }

  /** The one row strictly later than all others comes first once sorted. */
  lemma SortedHeadIsLatest(s: seq<Row>, k: nat)
    requires k < |s|
    requires forall i :: 0 <= i < |s| && i != k ==> s[i].registeredAt < s[k].registeredAt
    ensures |SortByTime(s)| == |s| && SortByTime(s)[0] == s[k]
  {
    var rows := SortByTime(s);
    assert |rows| == |multiset(rows)| == |s|;
    assert s[k] in multiset(rows);
    var m :| 0 <= m < |rows| && rows[m] == s[k];
    assert rows[0] in multiset(s);
    var j :| 0 <= j < |s| && s[j] == rows[0];
    assert rows[0].registeredAt >= rows[m].registeredAt;
    assert j == k;
  }

  /** A record registered after every other one heads the listing once it
      has been created. */
  lemma NewestListedFirst(t: Table, rec: Record)
    requires forall i :: 0 <= i < |t| ==> t[i].registeredAt < rec.registeredAt
    requires Named(t) && rec.producer != ""
    ensures List(Create(t, rec, Reachable).table, Reachable).Rows?
    ensures List(Create(t, rec, Reachable).table, Reachable).rows[0] == Display(rec)
  {
    var u := Create(t, rec, Reachable).table;
    assert Named(u);
    var shown := DisplayAll(u);
    assert List(u, Reachable) == Rows(SortByTime(shown));
    assert shown[|t|] == Display(rec);
    SortedHeadIsLatest(shown, |t|);
  }

  /** Once a record with an empty producer name is in the table, listing
      it stops the program instead of showing the rows. */
  lemma EmptyNameAbortsListing(t: Table, area: real, volume: real, at: int)
    requires area > 0.0 && volume >= 0.0
    ensures List(Create(t, NewRecord("", area, volume, at), Reachable).table, Reachable) == Aborted
  {
    var u := Create(t, NewRecord("", area, volume, at), Reachable).table;
    assert u[|t|].producer == "";
  }
}
