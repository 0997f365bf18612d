/** The CRUD workload: INSERT, UPDATE, DELETE and MERGE as steps on the `orders` table. */
module Orders {
  import opened Text

  datatype Row = Row(
    orderkey: int, custkey: int, status: string, totalprice: real, orderdate: string,
    orderpriority: string, clerk: string, shippriority: int, comment: string)

  datatype Op = I | U

  datatype FeedRow = FeedRow(row: Row, op: Op)

  /** SQL's MOD: the remainder has the sign of `a`. */
  function Mod(a: int, m: nat): int
    requires m > 0
  {
    if a >= 0 then a % m else -((-a) % m)
  }

  /** `MOD(ABS(HASH(key)), m)`, with the engine's `ABS(HASH(...))` as an unknown function. */
  function Bucket(h: int -> int, key: int, m: nat): int
    requires m > 0
  {
    Mod(h(key), m)
  }

  function Keys(rows: seq<Row>): (ks: set<int>) {
    set r | r in rows :: r.orderkey
  }

  predicate UniqueKeys(rows: seq<Row>) {
    forall i, j | 0 <= i < j < |rows| :: rows[i].orderkey != rows[j].orderkey
  }

  predicate PositiveKeys(rows: seq<Row>) {
    forall r | r in rows :: r.orderkey > 0
  }

  /** `MAX(o_orderkey)` of a table with rows. */
  function MaxKey(rows: seq<Row>): int
    requires rows != []
  {
    if |rows| == 1 then rows[0].orderkey
    else if rows[0].orderkey > MaxKey(rows[1..]) then rows[0].orderkey else MaxKey(rows[1..])
  }

  /** The rows of a hash bucket, in table order. */
  function Where(h: int -> int, rows: seq<Row>, m: nat, bucket: int): seq<Row>
    requires m > 0
  {
    if rows == [] then []
    else (if Bucket(h, rows[0].orderkey, m) == bucket then [rows[0]] else []) + Where(h, rows[1..], m, bucket)
  }

  // ----- the statements ---------------------------------------------------------------------

  function InsertedRow(r: Row, offset: int): Row {
    r.(orderkey := r.orderkey + offset, status := "N")
  }

  /** The rows INSERT adds. */
  function InsertSample(h: int -> int, rows: seq<Row>): seq<Row>
    requires rows != []
  {
    var sample := Where(h, rows, 30, 0);
    seq(|sample|, k requires 0 <= k < |sample| => InsertedRow(sample[k], MaxKey(rows) + 200000))
  }

  /** The table after INSERT; `MAX` of an empty table is NULL, but then no row is selected. */
  function Inserted(h: int -> int, rows: seq<Row>): seq<Row> {
    if rows == [] then [] else rows + InsertSample(h, rows)
  }

  function UpdatedRow(h: int -> int, r: Row): Row {
    if Bucket(h, r.orderkey, 100) == 3 then r.(status := "P") else r
  }

  function Updated(h: int -> int, rows: seq<Row>): seq<Row> {
    seq(|rows|, k requires 0 <= k < |rows| => UpdatedRow(h, rows[k]))
  }

  function Deleted(h: int -> int, rows: seq<Row>): seq<Row> {
    if rows == [] then []
    else (if Bucket(h, rows[0].orderkey, 100) == 17 then [] else [rows[0]]) + Deleted(h, rows[1..])
  }

  function FeedInsert(r: Row, offset: int): FeedRow {
    FeedRow(r.(orderkey := r.orderkey + offset, status := "F", totalprice := r.totalprice * 1.05,
               comment := "new:" + r.comment), I)
  }

  function FeedUpdate(r: Row): FeedRow {
    FeedRow(r.(status := "X"), U)
  }

  function FeedInserts(h: int -> int, rows: seq<Row>, offset: int): seq<FeedRow> {
    var news := Where(h, rows, 500, 0);
    seq(|news|, k requires 0 <= k < |news| => FeedInsert(news[k], offset))
  }

  function FeedUpdates(h: int -> int, rows: seq<Row>): seq<FeedRow> {
    var olds := Where(h, rows, 100, 7);
    seq(|olds|, k requires 0 <= k < |olds| => FeedUpdate(olds[k]))
  }

  /** The change feed, built once from the loaded table. */
  function Feed(h: int -> int, rows: seq<Row>): seq<FeedRow> {
    if rows == [] then [] else FeedInserts(h, rows, MaxKey(rows) + 100000) + FeedUpdates(h, rows)
  }

  /** The feed row that updates `key`: the first one, if there are several. */
  function UpdateFor(feed: seq<FeedRow>, key: int): Option<Row> {
    if feed == [] then None
    else if feed[0].op == U && feed[0].row.orderkey == key then Some(feed[0].row)
    else UpdateFor(feed[1..], key)
  }

  function MergedRow(feed: seq<FeedRow>, t: Row): Row {
    var s := UpdateFor(feed, t.orderkey);
    if s.Some? then t.(status := s.value.status, totalprice := s.value.totalprice) else t
  }

  function MatchedRows(feed: seq<FeedRow>, rows: seq<Row>): seq<Row> {
    seq(|rows|, k requires 0 <= k < |rows| => MergedRow(feed, rows[k]))
  }

  function UnmatchedInserts(feed: seq<FeedRow>, keys: set<int>): seq<Row> {
    if feed == [] then []
    else (if feed[0].op == I && feed[0].row.orderkey !in keys then [feed[0].row] else [])
         + UnmatchedInserts(feed[1..], keys)
  }

  predicate FeedKeysDistinct(feed: seq<FeedRow>) {
    forall i, j | 0 <= i < j < |feed| :: feed[i].row.orderkey != feed[j].row.orderkey
  }

  /** Two feed rows would update one row of the table: then MERGE is an error. */
  predicate Ambiguous(feed: seq<FeedRow>, rows: seq<Row>) {
    exists i, j | 0 <= i < j < |feed| ::
      feed[i].op == U && feed[j].op == U && feed[i].row.orderkey == feed[j].row.orderkey
      && feed[i].row.orderkey in Keys(rows)
  }

  /** The table after a MERGE that is not ambiguous. */
  function Merged(feed: seq<FeedRow>, rows: seq<Row>): seq<Row> {
    MatchedRows(feed, rows) + UnmatchedInserts(feed, Keys(rows))
  }

  // ----- the feed ---------------------------------------------------------------------------

  lemma {:induction false} WhereIs(h: int -> int, rows: seq<Row>, m: nat, bucket: int)
    requires m > 0
    ensures forall r :: r in Where(h, rows, m, bucket) <==> r in rows && Bucket(h, r.orderkey, m) == bucket
  {
    if rows == [] {
    } else {
      WhereIs(h, rows[1..], m, bucket);
      assert rows == [rows[0]] + rows[1..];
    }
  }

  lemma {:induction false} WhereUnique(h: int -> int, rows: seq<Row>, m: nat, bucket: int)
    requires m > 0 && UniqueKeys(rows)
    ensures UniqueKeys(Where(h, rows, m, bucket))
  {
    hide Bucket;
    if rows == [] {
    } else {
      WhereUnique(h, rows[1..], m, bucket);
      WhereIs(h, rows[1..], m, bucket);
    }
  }

  lemma {:induction false} MaxKeyIsMax(rows: seq<Row>)
    requires rows != []
    ensures forall r | r in rows :: r.orderkey <= MaxKey(rows)
  {
    if |rows| > 1 {
      MaxKeyIsMax(rows[1..]);
      assert rows == [rows[0]] + rows[1..];
    }
  }

  lemma ApartByBound(a: seq<FeedRow>, b: seq<FeedRow>, bound: int)
    requires FeedKeysDistinct(a) && FeedKeysDistinct(b)
    requires forall i | 0 <= i < |a| :: a[i].row.orderkey > bound
    requires forall i | 0 <= i < |b| :: b[i].row.orderkey <= bound
    ensures FeedKeysDistinct(a + b)
  {
  }

  lemma FeedInsertKeys(h: int -> int, rows: seq<Row>, offset: int)
    requires UniqueKeys(rows) && PositiveKeys(rows)
    ensures FeedKeysDistinct(FeedInserts(h, rows, offset))
    ensures forall s | s in FeedInserts(h, rows, offset) :: s.row.orderkey > offset
  {
    hide Bucket;
    WhereUnique(h, rows, 500, 0);
    WhereIs(h, rows, 500, 0);
  }

  lemma FeedUpdateKeys(h: int -> int, rows: seq<Row>)
    requires UniqueKeys(rows) && rows != []
    ensures FeedKeysDistinct(FeedUpdates(h, rows))
    ensures forall s | s in FeedUpdates(h, rows) :: s.row.orderkey <= MaxKey(rows)
  {
    hide Bucket, MaxKey;
    WhereUnique(h, rows, 100, 7);
    WhereIs(h, rows, 100, 7);
    MaxKeyIsMax(rows);
  }

  lemma FeedIsDistinct(h: int -> int, rows: seq<Row>)
    requires UniqueKeys(rows) && PositiveKeys(rows)
    ensures FeedKeysDistinct(Feed(h, rows))
  {
    hide FeedInserts, FeedUpdates, MaxKey;
    if rows != [] {
      var offset := MaxKey(rows) + 100000;
      FeedInsertKeys(h, rows, offset);
      FeedUpdateKeys(h, rows);
      ApartByBound(FeedInserts(h, rows, offset), FeedUpdates(h, rows), MaxKey(rows));
    }
  }

  /** The feed's keys are pairwise distinct, so no MERGE from it is ever ambiguous. */
  lemma FeedIsUnambiguous(h: int -> int, rows: seq<Row>)
    requires UniqueKeys(rows) && PositiveKeys(rows)
    ensures FeedKeysDistinct(Feed(h, rows))
    ensures forall table :: !Ambiguous(Feed(h, rows), table)
  {
    hide Feed, Keys;
    FeedIsDistinct(h, rows);
  }

  // ----- MERGE ------------------------------------------------------------------------------

  lemma {:induction false} UnmatchedInsertsIs(feed: seq<FeedRow>, keys: set<int>)
    ensures forall r :: r in UnmatchedInserts(feed, keys) <==> r.orderkey !in keys && FeedRow(r, I) in feed
  {
    if feed == [] {
    } else {
      UnmatchedInsertsIs(feed[1..], keys);
      assert feed == [feed[0]] + feed[1..];
    }
  }

  lemma {:induction false} UpdateForIs(feed: seq<FeedRow>, key: int)
    ensures UpdateFor(feed, key).Some? ==>
              UpdateFor(feed, key).value.orderkey == key && FeedRow(UpdateFor(feed, key).value, U) in feed
    ensures UpdateFor(feed, key).None? ==> forall s | s in feed :: s.op == U ==> s.row.orderkey != key
  {
    if feed == [] {
    } else {
      UpdateForIs(feed[1..], key);
      assert feed == [feed[0]] + feed[1..];
    }
  }

  lemma {:induction false} UnmatchedInsertsUnique(feed: seq<FeedRow>, keys: set<int>)
    requires FeedKeysDistinct(feed)
    ensures UniqueKeys(UnmatchedInserts(feed, keys))
  {
    if feed == [] {
    } else {
      var rest := feed[1..];
      assert forall i | 0 <= i < |rest| :: rest[i] == feed[i + 1];
      UnmatchedInsertsUnique(rest, keys);
      UnmatchedInsertsIs(rest, keys);
    }
  }

  lemma FeedRowsOfOneKey(feed: seq<FeedRow>, a: FeedRow, b: FeedRow)
    requires FeedKeysDistinct(feed) && a in feed && b in feed && a.row.orderkey == b.row.orderkey
    ensures a == b
  {
  }

  /** What MERGE does, row by row: a row keeps its place and its other columns and takes status and
      price from its update; the feed's inserts come in whose key the table lacked; nothing else. */
  lemma MergeMeaning(feed: seq<FeedRow>, rows: seq<Row>)
    requires FeedKeysDistinct(feed)
    ensures |Merged(feed, rows)| >= |rows|
    ensures forall i, s | 0 <= i < |rows| && s in feed && s.op == U && s.row.orderkey == rows[i].orderkey ::
              Merged(feed, rows)[i] == rows[i].(status := s.row.status, totalprice := s.row.totalprice)
    ensures forall i | 0 <= i < |rows| && NoUpdateFor(feed, rows[i].orderkey) :: Merged(feed, rows)[i] == rows[i]
    ensures forall r :: r in Merged(feed, rows)[|rows|..] <==> r.orderkey !in Keys(rows) && FeedRow(r, I) in feed
  {
    hide Keys;
    var added := UnmatchedInserts(feed, Keys(rows));
    assert Merged(feed, rows)[|rows|..] == added;
    UnmatchedInsertsIs(feed, Keys(rows));
    forall i | 0 <= i < |rows|
      ensures forall s | s in feed && s.op == U && s.row.orderkey == rows[i].orderkey ::
                Merged(feed, rows)[i] == rows[i].(status := s.row.status, totalprice := s.row.totalprice)
      ensures NoUpdateFor(feed, rows[i].orderkey) ==> Merged(feed, rows)[i] == rows[i]
    {
      var key := rows[i].orderkey;
      UpdateForIs(feed, key);
      forall s | s in feed && s.op == U && s.row.orderkey == key
        ensures UpdateFor(feed, key) == Some(s.row)
      {
        FeedRowsOfOneKey(feed, s, FeedRow(UpdateFor(feed, key).value, U));
      }
    }
  }

  /** No update of the feed has this key. */
  predicate NoUpdateFor(feed: seq<FeedRow>, key: int) {
    forall s | s in feed :: s.op == U ==> s.row.orderkey != key
  }

  lemma MergeKeys(feed: seq<FeedRow>, rows: seq<Row>)
    ensures forall k :: k in Keys(rows) ==> k in Keys(Merged(feed, rows))
    ensures forall s | s in feed && s.op == I :: s.row.orderkey in Keys(Merged(feed, rows))
  {
    var m := Merged(feed, rows);
    UnmatchedInsertsIs(feed, Keys(rows));
    assert forall i | 0 <= i < |rows| :: m[i].orderkey == rows[i].orderkey;
    forall k | k in Keys(rows)
      ensures k in Keys(m)
    {
      var i :| 0 <= i < |rows| && rows[i].orderkey == k;
      assert m[i] in m;
    }
    forall s | s in feed && s.op == I
      ensures s.row.orderkey in Keys(m)
    {
      if s.row.orderkey !in Keys(rows) {
        assert s == FeedRow(s.row, I);
        assert s.row in m;
      }
    }
  }

  lemma {:induction false} NothingUnmatched(feed: seq<FeedRow>, keys: set<int>)
    requires forall s | s in feed && s.op == I :: s.row.orderkey in keys
    ensures UnmatchedInserts(feed, keys) == []
  {
    if feed == [] {
    } else {
      NothingUnmatched(feed[1..], keys);
    }
  }

  /** Applying MERGE twice is applying it once, on every table. */
  lemma MergeIdempotent(feed: seq<FeedRow>, rows: seq<Row>)
    requires FeedKeysDistinct(feed)
    ensures Merged(feed, Merged(feed, rows)) == Merged(feed, rows)
  {
    var m := Merged(feed, rows);
    MergeKeys(feed, rows);
    NothingUnmatched(feed, Keys(m));
    UnmatchedInsertsIs(feed, Keys(rows));
    forall i | 0 <= i < |m|
      ensures MergedRow(feed, m[i]) == m[i]
    {
      if i >= |rows| {
        var r := m[i];
        assert r in UnmatchedInserts(feed, Keys(rows));
        UpdateForIs(feed, r.orderkey);
        if UpdateFor(feed, r.orderkey).Some? {
          FeedRowsOfOneKey(feed, FeedRow(r, I), FeedRow(UpdateFor(feed, r.orderkey).value, U));
        }
      }
    }
    assert MatchedRows(feed, m) == m;
  }

  // ----- runs -------------------------------------------------------------------------------

  datatype Statement = InsertBatch | Update1Pct | Delete1Pct | MergeCdc

  function Applied(h: int -> int, feed: seq<FeedRow>, s: Statement, rows: seq<Row>): seq<Row> {
    match s
    case InsertBatch => Inserted(h, rows)
    case Update1Pct => Updated(h, rows)
    case Delete1Pct => Deleted(h, rows)
    case MergeCdc => Merged(feed, rows)
  }

  /** The table after a schedule of statements, in order. */
  function AfterRun(h: int -> int, feed: seq<FeedRow>, steps: seq<Statement>, rows: seq<Row>): seq<Row> {
    if steps == [] then rows
    else Applied(h, feed, steps[|steps| - 1], AfterRun(h, feed, steps[..|steps| - 1], rows))
  }

  /** The row of the loaded table that the feed's update bucket holds, as it is once a MERGE ran. */
  function Frozen(r: Row, merged: bool): Row {
    if merged then r.(status := "X") else r
  }

  /** What every run keeps: unique positive keys, and the rows of the feed's update bucket exactly
      as they were loaded, up to the status that a MERGE gives them. */
  ghost predicate Inv(h: int -> int, loaded: seq<Row>, merged: bool, rows: seq<Row>) {
    && UniqueKeys(rows)
    && PositiveKeys(rows)
    && forall r | r in loaded && Bucket(h, r.orderkey, 100) == 7 :: Frozen(r, merged) in rows
  }

  /** DELETE takes out exactly the rows of its bucket. */
  lemma {:induction false} DeletedIs(h: int -> int, rows: seq<Row>)
    ensures forall r :: r in Deleted(h, rows) <==> r in rows && Bucket(h, r.orderkey, 100) != 17
  {
    hide Bucket;
    if rows == [] {
    } else {
      DeletedIs(h, rows[1..]);
      assert rows == [rows[0]] + rows[1..];
    }
  }

  lemma {:induction false} DeletedUnique(h: int -> int, rows: seq<Row>)
    requires UniqueKeys(rows)
    ensures UniqueKeys(Deleted(h, rows))
  {
    hide Bucket;
    if rows == [] {
    } else {
      DeletedUnique(h, rows[1..]);
      DeletedIs(h, rows[1..]);
    }
  }

  lemma UniqueConcat(a: seq<Row>, b: seq<Row>)
    requires UniqueKeys(a) && UniqueKeys(b)
    requires forall x, y | x in a && y in b :: x.orderkey != y.orderkey
    ensures UniqueKeys(a + b)
  {
    forall i, j | 0 <= i < j < |a + b|
      ensures (a + b)[i].orderkey != (a + b)[j].orderkey
    {
      if i < |a| <= j {
        assert a[i] in a && b[j - |a|] in b;
      }
    }
  }

  /** The rows INSERT adds are those of one bucket, each under a new key and with a new status. */
  lemma InsertSampleIs(h: int -> int, rows: seq<Row>)
    requires rows != []
    ensures forall x :: x in InsertSample(h, rows) <==>
              exists r | r in rows && Bucket(h, r.orderkey, 30) == 0 :: x == InsertedRow(r, MaxKey(rows) + 200000)
  {
    hide Bucket, MaxKey, InsertedRow;
    var sample, added := Where(h, rows, 30, 0), InsertSample(h, rows);
    WhereIs(h, rows, 30, 0);
    forall r | r in rows && Bucket(h, r.orderkey, 30) == 0
      ensures InsertedRow(r, MaxKey(rows) + 200000) in added
    {
      var k :| 0 <= k < |sample| && sample[k] == r;
      assert added[k] == InsertedRow(r, MaxKey(rows) + 200000);
    }
    forall x | x in added
      ensures exists r | r in rows && Bucket(h, r.orderkey, 30) == 0 :: x == InsertedRow(r, MaxKey(rows) + 200000)
    {
      var k :| 0 <= k < |added| && added[k] == x;
      assert sample[k] in sample;
    }
  }

  lemma InsertSampleKeys(h: int -> int, rows: seq<Row>)
    requires rows != [] && UniqueKeys(rows) && PositiveKeys(rows)
    ensures UniqueKeys(InsertSample(h, rows))
    ensures forall x | x in InsertSample(h, rows) :: x.orderkey > MaxKey(rows) + 200000
  {
    hide Bucket, MaxKey;
    WhereUnique(h, rows, 30, 0);
    WhereIs(h, rows, 30, 0);
  }

  /** INSERT adds its sample under keys beyond every key of the table. */
  lemma InsertKeeps(h: int -> int, rows: seq<Row>)
    requires UniqueKeys(rows) && PositiveKeys(rows)
    ensures rows <= Inserted(h, rows)
    ensures UniqueKeys(Inserted(h, rows)) && PositiveKeys(Inserted(h, rows))
    ensures forall x, r | x in Inserted(h, rows)[|rows|..] && r in rows :: x.orderkey > r.orderkey + 200000
  {
    hide Where, MaxKey;
    if rows != [] {
      var added := InsertSample(h, rows);
      InsertSampleKeys(h, rows);
      MaxKeyIsMax(rows);
      assert rows[0].orderkey > 0;
      assert Inserted(h, rows) == rows + added && (rows + added)[|rows|..] == added;
      hide InsertSample;
      UniqueConcat(rows, added);
    }
  }

  /** UPDATE keeps every row's place, key and other columns: a row of its bucket gets status P, and
      any other row stays as it is. */
  lemma UpdateKeeps(h: int -> int, rows: seq<Row>)
    requires UniqueKeys(rows) && PositiveKeys(rows)
    ensures UniqueKeys(Updated(h, rows)) && PositiveKeys(Updated(h, rows))
    ensures |Updated(h, rows)| == |rows|
    ensures forall i | 0 <= i < |rows| ::
              Updated(h, rows)[i].(status := rows[i].status) == rows[i]
              && Updated(h, rows)[i].status == if Bucket(h, rows[i].orderkey, 100) == 3 then "P" else rows[i].status
    ensures forall r | r in rows && Bucket(h, r.orderkey, 100) != 3 :: r in Updated(h, rows)
  {
    hide Bucket;
    var u := Updated(h, rows);
    forall r | r in rows && Bucket(h, r.orderkey, 100) != 3
      ensures r in u
    {
      var i :| 0 <= i < |rows| && rows[i] == r;
      assert u[i] == r;
    }
  }

  lemma FeedUpdateRows(h: int -> int, loaded: seq<Row>)
    ensures forall r | r in loaded && Bucket(h, r.orderkey, 100) == 7 :: FeedUpdate(r) in Feed(h, loaded)
  {
    hide Bucket;
    if loaded != [] {
      var news := Where(h, loaded, 500, 0);
      var olds := Where(h, loaded, 100, 7);
      WhereIs(h, loaded, 100, 7);
      forall r | r in loaded && Bucket(h, r.orderkey, 100) == 7
        ensures FeedUpdate(r) in Feed(h, loaded)
      {
        var k :| 0 <= k < |olds| && olds[k] == r;
        assert Feed(h, loaded)[|news| + k] == FeedUpdate(r);
      }
    }
  }

  lemma FeedPositive(h: int -> int, loaded: seq<Row>)
    requires PositiveKeys(loaded)
    ensures forall s | s in Feed(h, loaded) :: s.row.orderkey > 0
  {
    hide Bucket;
    if loaded != [] {
      WhereIs(h, loaded, 500, 0);
      WhereIs(h, loaded, 100, 7);
      MaxKeyIsMax(loaded);
      assert loaded[0] in loaded;
    }
  }

  lemma MergeKeepsUnique(feed: seq<FeedRow>, rows: seq<Row>)
    requires FeedKeysDistinct(feed) && UniqueKeys(rows) && PositiveKeys(rows)
    requires forall s | s in feed :: s.row.orderkey > 0
    ensures UniqueKeys(Merged(feed, rows)) && PositiveKeys(Merged(feed, rows))
  {
    var a, b := MatchedRows(feed, rows), UnmatchedInserts(feed, Keys(rows));
    UnmatchedInsertsIs(feed, Keys(rows));
    UnmatchedInsertsUnique(feed, Keys(rows));
    forall i | 0 <= i < |a| ensures a[i].orderkey == rows[i].orderkey && a[i].orderkey in Keys(rows) {
      assert rows[i] in rows;
    }
    UniqueConcat(a, b);
  }

  lemma MergeKeepsFrozen(h: int -> int, loaded: seq<Row>, merged: bool, rows: seq<Row>, r: Row)
    requires UniqueKeys(loaded) && PositiveKeys(loaded)
    requires r in loaded && Bucket(h, r.orderkey, 100) == 7 && Frozen(r, merged) in rows
    ensures Frozen(r, true) in Merged(Feed(h, loaded), rows)
  {
    hide Bucket, Feed, Keys;
    var feed := Feed(h, loaded);
    FeedIsDistinct(h, loaded);
    FeedUpdateRows(h, loaded);
    var i :| 0 <= i < |rows| && rows[i] == Frozen(r, merged);
    MergeMeaning(feed, rows);
    assert FeedUpdate(r) in feed;
    assert Merged(feed, rows)[i] == Frozen(r, true);
  }

  /** Every statement keeps the invariant. */
  lemma StepKeepsInv(h: int -> int, loaded: seq<Row>, s: Statement, merged: bool, rows: seq<Row>)
    requires UniqueKeys(loaded) && PositiveKeys(loaded) && Inv(h, loaded, merged, rows)
    ensures Inv(h, loaded, merged || s == MergeCdc, Applied(h, Feed(h, loaded), s, rows))
  {
    hide Bucket, Feed;
    match s
    case InsertBatch => InsertKeeps(h, rows);
    case Update1Pct => UpdateKeeps(h, rows);
    case Delete1Pct =>
      DeletedIs(h, rows);
      DeletedUnique(h, rows);
    case MergeCdc =>
      FeedIsDistinct(h, loaded);
      FeedPositive(h, loaded);
      MergeKeepsUnique(Feed(h, loaded), rows);
      forall r | r in loaded && Bucket(h, r.orderkey, 100) == 7
        ensures Frozen(r, true) in Merged(Feed(h, loaded), rows)
      {
        MergeKeepsFrozen(h, loaded, merged, rows, r);
      }
  }

  /** Over every schedule of INSERT, UPDATE, DELETE and MERGE from a table with unique positive keys:
      keys stay unique and positive, every row of the feed's update bucket stays present, and its
      content is the loaded row, with the feed's status exactly when the schedule has a MERGE. */
  lemma {:induction false} RunKeepsInv(h: int -> int, loaded: seq<Row>, steps: seq<Statement>)
    requires UniqueKeys(loaded) && PositiveKeys(loaded)
    ensures Inv(h, loaded, MergeCdc in steps, AfterRun(h, Feed(h, loaded), steps, loaded))
  {
    hide Bucket, Feed, Applied;
    if steps == [] {
    } else {
      var init, last := steps[..|steps| - 1], steps[|steps| - 1];
      RunKeepsInv(h, loaded, init);
      StepKeepsInv(h, loaded, last, MergeCdc in init, AfterRun(h, Feed(h, loaded), init, loaded));
      assert steps == init + [last];
      assert MergeCdc in steps <==> MergeCdc in init || last == MergeCdc;
    }
  }

  ghost predicate Consistent(
    h: int -> int, loaded: seq<Row>, feed: seq<FeedRow>, history: seq<Statement>, rows: seq<Row>)
  {
    && UniqueKeys(loaded) && PositiveKeys(loaded) && feed == Feed(h, loaded)
    && rows == AfterRun(h, feed, history, loaded)
    && Inv(h, loaded, MergeCdc in history, rows)
  }

  /** The table as the engine holds it: statements change it in place. */
  class OrdersTable {
    var rows: seq<Row>
    const loaded: seq<Row>
    const h: int -> int
    const feed: seq<FeedRow>
    ghost var history: seq<Statement>

    ghost predicate Valid()
      reads this
    {
      Consistent(h, loaded, feed, history, rows)
    }

    constructor (loaded: seq<Row>, h: int -> int)
      requires UniqueKeys(loaded) && PositiveKeys(loaded)
      ensures Valid() && this.loaded == loaded && this.h == h && history == []
    {
      this.loaded, this.h, this.feed := loaded, h, Feed(h, loaded);
      rows, history := loaded, [];
    }

    /** One measured step: the statement runs in place and keeps the invariant. */
    method Execute(s: Statement)
      requires Valid()
      modifies this
      ensures Valid() && history == old(history) + [s]
      ensures rows == Applied(h, feed, s, old(rows))
      ensures s == MergeCdc && old(history) != [] && old(history)[|old(history)| - 1] == MergeCdc ==> rows == old(rows)
    {
      hide Feed, Inv, UniqueKeys, PositiveKeys, Inserted, Updated, Deleted, Merged;
      StepKeepsInv(h, loaded, s, MergeCdc in history, rows);
      if |history| > 0 && history[|history| - 1] == MergeCdc {
        FeedIsDistinct(h, loaded);
        MergeIdempotent(feed, AfterRun(h, feed, history[..|history| - 1], loaded));
      }
      match s {
        case InsertBatch => rows := Inserted(h, rows);
        case Update1Pct => rows := Updated(h, rows);
        case Delete1Pct => rows := Deleted(h, rows);
        case MergeCdc => rows := Merged(feed, rows);
      }
      history := history + [s];
      assert history[..|history| - 1] == old(history);
    }

    /** One step, so many times in a row. */
    method ExecuteTimes(s: Statement, runs: nat)
      requires Valid()
      modifies this
      ensures Valid() && history == old(history) + Repeat(s, runs)
    {
      hide Consistent, Applied;
      for j := 0 to runs
        invariant Valid() && history == old(history) + Repeat(s, j)
      {
        Execute(s);
        assert history == old(history) + (Repeat(s, j) + [s]);
      }
    }

    /** The measured phase: each step so many times in a row, in the workload's order. */
    method Measure(steps: seq<Statement>, runs: nat)
      requires Valid()
      modifies this
      ensures Valid() && history == old(history) + Schedule(steps, runs)
    {
      hide Consistent, Repeat;
      for k := 0 to |steps|
        invariant Valid() && history == old(history) + Schedule(steps[..k], runs)
      {
        ExecuteTimes(steps[k], runs);
        assert steps[..k + 1][..k] == steps[..k];
        assert history == old(history) + (Schedule(steps[..k], runs) + Repeat(steps[k], runs));
      }
      assert steps[..|steps|] == steps;
    }
  }

  function Repeat(s: Statement, runs: nat): seq<Statement> {
    if runs == 0 then [] else Repeat(s, runs - 1) + [s]
  }

  /** Each step `runs` times, one step after the other. */
  function Schedule(steps: seq<Statement>, runs: nat): seq<Statement> {
    if steps == [] then []
    else Schedule(steps[..|steps| - 1], runs) + Repeat(steps[|steps| - 1], runs)
  }
}
