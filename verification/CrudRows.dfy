/** The four statements of the CRUD workload and the MERGE on `lineitem`, column by column and with
    their constants written out. `h` stands for `ABS(HASH(...))`, which may come back negative. */
module CrudRows {
  import opened Text
  import opened Numbers
  import opened Orders
  import Lineitems

  predicate IsMax(rows: seq<Row>, m: int) {
    && (exists r | r in rows :: r.orderkey == m)
    && forall r | r in rows :: r.orderkey <= m
  }

  lemma MaxIs(rows: seq<Row>, m: int)
    requires IsMax(rows, m)
    ensures rows != [] && MaxKey(rows) == m
  {
    MaxKeyIsMax(rows);
    MaxKeyOccurs(rows);
  }

  lemma {:induction false} MaxKeyOccurs(rows: seq<Row>)
    requires rows != []
    ensures exists r | r in rows :: r.orderkey == MaxKey(rows)
  {
    if MaxKey(rows) == rows[0].orderkey {
      assert rows[0] in rows;
    } else {
      MaxKeyOccurs(rows[1..]);
      var r :| r in rows[1..] && r.orderkey == MaxKey(rows[1..]);
      assert r in rows;
    }
  }

  /** A negative hash falls into bucket 0 when it is a multiple, and into none above. */
  lemma BucketIs(h: int -> int, key: int, m: nat, b: nat)
    requires m > 0
    ensures b == 0 ==> (Bucket(h, key, m) == b <==> h(key) % m == 0)
    ensures b > 0 ==> (Bucket(h, key, m) == b <==> h(key) >= 0 && h(key) % m == b)
  {
    var a := h(key);
    if a < 0 {
      MultipleOf(a, m);
    }
  }

  lemma MultipleOf(a: int, m: nat)
    requires m > 0
    ensures (-a) % m == 0 <==> a % m == 0
  {
    if a % m == 0 {
      Negated(a, m);
    }
    if (-a) % m == 0 {
      Negated(-a, m);
    }
  }

  lemma Negated(a: int, m: nat)
    requires m > 0 && a % m == 0
    ensures (-a) % m == 0
  {
    assert -a == (-(a / m)) * m;
    ModUnique(-a, m, -(a / m), 0);
  }

  // ----- INSERT, UPDATE, DELETE -------------------------------------------------------------

  /** INSERT adds, for each row whose hash is a multiple of 30, its copy under the key plus the
      maximum plus 200000 and with status N, once, and keeps every row. */
  lemma InsertRows(h: int -> int, feed: seq<FeedRow>, rows: seq<Row>, m: int)
    requires UniqueKeys(rows) && PositiveKeys(rows) && IsMax(rows, m)
    ensures var after := Applied(h, feed, InsertBatch, rows);
            && rows <= after
            && UniqueKeys(after[|rows|..])
            && forall x :: x in after[|rows|..] <==>
                 exists r | r in rows && h(r.orderkey) % 30 == 0 ::
                   x == Row(r.orderkey + m + 200000, r.custkey, "N", r.totalprice, r.orderdate,
                            r.orderpriority, r.clerk, r.shippriority, r.comment)
  {
    hide MaxKey, UniqueKeys, InsertSample, Bucket;
    MaxIs(rows, m);
    InsertSampleIs(h, rows);
    InsertSampleKeys(h, rows);
    forall r | r in rows
      ensures Bucket(h, r.orderkey, 30) == 0 <==> h(r.orderkey) % 30 == 0
    {
      BucketIs(h, r.orderkey, 30, 0);
    }
    assert Inserted(h, rows) == rows + InsertSample(h, rows);
    assert (rows + InsertSample(h, rows))[|rows|..] == InsertSample(h, rows);
  }

  /** INSERT into an empty table adds nothing. */
  lemma InsertIntoNothing(h: int -> int, feed: seq<FeedRow>)
    ensures Applied(h, feed, InsertBatch, []) == []
  {
  }

  /** UPDATE sets status P where the hash is 3 modulo 100 and keeps everything else in place. */
  lemma UpdateRows(h: int -> int, feed: seq<FeedRow>, rows: seq<Row>)
    ensures var after := Applied(h, feed, Update1Pct, rows);
            && |after| == |rows|
            && forall i | 0 <= i < |rows| ::
                 after[i] == if h(rows[i].orderkey) >= 0 && h(rows[i].orderkey) % 100 == 3
                             then rows[i].(status := "P")
                             else rows[i]
  {
    hide Bucket;
    forall i | 0 <= i < |rows|
      ensures Bucket(h, rows[i].orderkey, 100) == 3 <==>
              h(rows[i].orderkey) >= 0 && h(rows[i].orderkey) % 100 == 3
    {
      BucketIs(h, rows[i].orderkey, 100, 3);
    }
  }

  /** DELETE takes out exactly the rows whose hash is 17 modulo 100. */
  lemma DeleteRows(h: int -> int, feed: seq<FeedRow>, rows: seq<Row>)
    requires UniqueKeys(rows)
    ensures var after := Applied(h, feed, Delete1Pct, rows);
            && UniqueKeys(after)
            && forall r :: r in after <==>
                 r in rows && !(h(r.orderkey) >= 0 && h(r.orderkey) % 100 == 17)
  {
    hide Bucket, UniqueKeys, Deleted;
    DeletedIs(h, rows);
    DeletedUnique(h, rows);
    forall r: Row
      ensures Bucket(h, r.orderkey, 100) == 17 <==> h(r.orderkey) >= 0 && h(r.orderkey) % 100 == 17
    {
      BucketIs(h, r.orderkey, 100, 17);
    }
  }

  // ----- MERGE ------------------------------------------------------------------------------

  lemma FeedInsertIs(r: Row, m: int)
    ensures FeedInsert(r, m + 100000) ==
            FeedRow(Row(r.orderkey + m + 100000, r.custkey, "F", r.totalprice * 1.05, r.orderdate,
                        r.orderpriority, r.clerk, r.shippriority, "new:" + r.comment), I)
  {
  }

  lemma InsertIsOffered(h: int -> int, loaded: seq<Row>, m: int, r: Row)
    requires r in loaded && MaxKey(loaded) == m && h(r.orderkey) % 500 == 0
    ensures FeedInsert(r, m + 100000) in Feed(h, loaded)
  {
    hide MaxKey, Bucket, Where, FeedInsert, FeedUpdates;
    var news := Where(h, loaded, 500, 0);
    WhereIs(h, loaded, 500, 0);
    BucketIs(h, r.orderkey, 500, 0);
    var k :| 0 <= k < |news| && news[k] == r;
    assert Feed(h, loaded)[k] == FeedInserts(h, loaded, m + 100000)[k];
  }

  lemma InsertHasSource(h: int -> int, loaded: seq<Row>, m: int, x: Row) returns (r: Row)
    requires loaded != [] && MaxKey(loaded) == m && FeedRow(x, I) in Feed(h, loaded)
    ensures r in loaded && h(r.orderkey) % 500 == 0 && FeedInsert(r, m + 100000) == FeedRow(x, I)
  {
    hide MaxKey, Bucket, Where, FeedInsert;
    var feed, news := Feed(h, loaded), Where(h, loaded, 500, 0);
    WhereIs(h, loaded, 500, 0);
    var k :| 0 <= k < |feed| && feed[k] == FeedRow(x, I);
    assert k < |news|;
    r := news[k];
    BucketIs(h, r.orderkey, 500, 0);
  }

  /** The rows that the feed offers for insertion, `m` being the greatest loaded key. */
  lemma FeedInsertRows(h: int -> int, loaded: seq<Row>, m: int)
    requires IsMax(loaded, m)
    ensures forall x :: FeedRow(x, I) in Feed(h, loaded) <==>
              exists r | r in loaded && h(r.orderkey) % 500 == 0 ::
                x == Row(r.orderkey + m + 100000, r.custkey, "F", r.totalprice * 1.05, r.orderdate,
                         r.orderpriority, r.clerk, r.shippriority, "new:" + r.comment)
  {
    hide MaxKey, Bucket, FeedInsert, FeedInserts, FeedUpdates;
    MaxIs(loaded, m);
    var feed := Feed(h, loaded);
    forall x | FeedRow(x, I) in feed
      ensures exists r | r in loaded && h(r.orderkey) % 500 == 0 ::
                x == Row(r.orderkey + m + 100000, r.custkey, "F", r.totalprice * 1.05, r.orderdate,
                         r.orderpriority, r.clerk, r.shippriority, "new:" + r.comment)
    {
      var r := InsertHasSource(h, loaded, m, x);
      FeedInsertIs(r, m);
    }
    forall r | r in loaded && h(r.orderkey) % 500 == 0
      ensures FeedRow(Row(r.orderkey + m + 100000, r.custkey, "F", r.totalprice * 1.05, r.orderdate,
                          r.orderpriority, r.clerk, r.shippriority, "new:" + r.comment), I) in feed
    {
      InsertIsOffered(h, loaded, m, r);
      FeedInsertIs(r, m);
    }
  }

  /** The feed updates the loaded rows whose hash is 7 modulo 100, and changes their status only. */
  lemma FeedUpdateRowsAre(h: int -> int, loaded: seq<Row>)
    ensures forall x :: FeedRow(x, U) in Feed(h, loaded) <==>
              exists r | r in loaded && h(r.orderkey) >= 0 && h(r.orderkey) % 100 == 7 ::
                x == r.(status := "X")
  {
    hide Bucket, Feed;
    forall x | FeedRow(x, U) in Feed(h, loaded)
      ensures exists r | r in loaded && h(r.orderkey) >= 0 && h(r.orderkey) % 100 == 7 ::
                x == r.(status := "X")
    {
      var r := UpdateHasSource(h, loaded, x);
    }
    forall r | r in loaded && h(r.orderkey) >= 0 && h(r.orderkey) % 100 == 7
      ensures FeedRow(r.(status := "X"), U) in Feed(h, loaded)
    {
      BucketIs(h, r.orderkey, 100, 7);
      FeedUpdateRows(h, loaded);
      assert FeedUpdate(r) == FeedRow(r.(status := "X"), U);
    }
  }

  lemma UpdateHasSource(h: int -> int, loaded: seq<Row>, x: Row) returns (r: Row)
    requires FeedRow(x, U) in Feed(h, loaded)
    ensures r in loaded && h(r.orderkey) >= 0 && h(r.orderkey) % 100 == 7 && x == r.(status := "X")
  {
    hide MaxKey, Bucket, Where;
    var feed, olds := Feed(h, loaded), Where(h, loaded, 100, 7);
    var n := |Where(h, loaded, 500, 0)|;
    WhereIs(h, loaded, 100, 7);
    var k :| 0 <= k < |feed| && feed[k] == FeedRow(x, U);
    assert k >= n && feed[k] == FeedUpdates(h, loaded)[k - n];
    r := olds[k - n];
    BucketIs(h, r.orderkey, 100, 7);
  }

  /** MERGE on any table adds each row the feed offers under a key that the table lacks, once. */
  lemma MergeAdds(h: int -> int, loaded: seq<Row>, rows: seq<Row>, m: int)
    requires UniqueKeys(loaded) && PositiveKeys(loaded) && IsMax(loaded, m)
    ensures var after := Applied(h, Feed(h, loaded), MergeCdc, rows);
            && |after| >= |rows|
            && UniqueKeys(after[|rows|..])
            && forall x :: x in after[|rows|..] <==>
                 (forall t | t in rows :: t.orderkey != x.orderkey) &&
                 exists r | r in loaded && h(r.orderkey) % 500 == 0 ::
                   x == Row(r.orderkey + m + 100000, r.custkey, "F", r.totalprice * 1.05, r.orderdate,
                            r.orderpriority, r.clerk, r.shippriority, "new:" + r.comment)
  {
    hide MaxKey, Feed, UniqueKeys, Merged, Keys, FeedKeysDistinct, NoUpdateFor;
    var feed := Feed(h, loaded);
    FeedIsDistinct(h, loaded);
    FeedInsertRows(h, loaded, m);
    MergeMeaning(feed, rows);
    AddedUnique(feed, rows);
    KeysAre(rows);
  }

  /** MERGE on any table gives the rows of the feed's update bucket status X and the price they were
      loaded with, and keeps every other row. */
  lemma MergeUpdates(h: int -> int, loaded: seq<Row>, rows: seq<Row>, i: nat)
    requires UniqueKeys(loaded) && PositiveKeys(loaded) && i < |rows|
    ensures |Applied(h, Feed(h, loaded), MergeCdc, rows)| >= |rows|
    ensures forall r | r in loaded && r.orderkey == rows[i].orderkey &&
              h(r.orderkey) >= 0 && h(r.orderkey) % 100 == 7 ::
              Applied(h, Feed(h, loaded), MergeCdc, rows)[i] ==
              rows[i].(status := "X", totalprice := r.totalprice)
    ensures (forall r | r in loaded && r.orderkey == rows[i].orderkey ::
              !(h(r.orderkey) >= 0 && h(r.orderkey) % 100 == 7)) ==>
            Applied(h, Feed(h, loaded), MergeCdc, rows)[i] == rows[i]
  {
    hide MaxKey, Feed, UniqueKeys, Merged, Keys, FeedKeysDistinct;
    var feed := Feed(h, loaded);
    FeedIsDistinct(h, loaded);
    FeedUpdateRowsAre(h, loaded);
    MergeMeaning(feed, rows);
    forall r | r in loaded && r.orderkey == rows[i].orderkey && h(r.orderkey) >= 0 && h(r.orderkey) % 100 == 7
      ensures Merged(feed, rows)[i] == rows[i].(status := "X", totalprice := r.totalprice)
    {
      assert FeedRow(r.(status := "X"), U) in feed;
    }
    if forall r | r in loaded && r.orderkey == rows[i].orderkey ::
        !(h(r.orderkey) >= 0 && h(r.orderkey) % 100 == 7) {
      forall s | s in feed && s.op == U
        ensures s.row.orderkey != rows[i].orderkey
      {
        assert s == FeedRow(s.row, U);
      }
      assert NoUpdateFor(feed, rows[i].orderkey);
    }
  }

  lemma KeysAre(rows: seq<Row>)
    ensures forall k :: k in Keys(rows) <==> exists t | t in rows :: t.orderkey == k
  {
  }

  lemma AddedUnique(feed: seq<FeedRow>, rows: seq<Row>)
    requires FeedKeysDistinct(feed)
    ensures |Merged(feed, rows)| >= |rows| && UniqueKeys(Merged(feed, rows)[|rows|..])
  {
    UnmatchedInsertsUnique(feed, Keys(rows));
    assert Merged(feed, rows)[|rows|..] == UnmatchedInserts(feed, Keys(rows));
  }

  /** The first MERGE, on the table as loaded: it adds exactly one row for each loaded row whose
      hash is a multiple of 500, and sets status X where the hash is 7 modulo 100. */
  lemma FirstMerge(h: int -> int, loaded: seq<Row>, m: int)
    requires UniqueKeys(loaded) && PositiveKeys(loaded) && IsMax(loaded, m)
    ensures var after := Applied(h, Feed(h, loaded), MergeCdc, loaded);
            && |after| >= |loaded|
            && UniqueKeys(after[|loaded|..])
            && (forall x :: x in after[|loaded|..] <==>
                 exists r | r in loaded && h(r.orderkey) % 500 == 0 ::
                   x == Row(r.orderkey + m + 100000, r.custkey, "F", r.totalprice * 1.05, r.orderdate,
                            r.orderpriority, r.clerk, r.shippriority, "new:" + r.comment))
            && forall i | 0 <= i < |loaded| ::
                 after[i] == if h(loaded[i].orderkey) >= 0 && h(loaded[i].orderkey) % 100 == 7
                             then loaded[i].(status := "X")
                             else loaded[i]
  {
    hide Feed, Applied;
    MergeAdds(h, loaded, loaded, m);
    NewKeys(loaded, m);
    forall i | 0 <= i < |loaded|
      ensures Applied(h, Feed(h, loaded), MergeCdc, loaded)[i] ==
              if h(loaded[i].orderkey) >= 0 && h(loaded[i].orderkey) % 100 == 7
              then loaded[i].(status := "X")
              else loaded[i]
    {
      MergeUpdates(h, loaded, loaded, i);
      OneRowPerKey(loaded, loaded[i]);
    }
  }

  lemma NewKeys(loaded: seq<Row>, m: int)
    requires PositiveKeys(loaded) && IsMax(loaded, m)
    ensures forall r, t | r in loaded && t in loaded :: t.orderkey != r.orderkey + m + 100000
  {
  }

  lemma OneRowPerKey(rows: seq<Row>, t: Row)
    requires UniqueKeys(rows) && t in rows
    ensures forall r | r in rows && r.orderkey == t.orderkey :: r == t
  {
  }

  /** MERGE with the feed of an empty table changes nothing. */
  lemma {:induction false} MergeOfNothing(h: int -> int, rows: seq<Row>)
    ensures Applied(h, Feed(h, []), MergeCdc, rows) == rows
  {
  }

  // ----- the measured phase -----------------------------------------------------------------

  lemma {:induction false} RepeatAt(s: Statement, runs: nat)
    ensures |Repeat(s, runs)| == runs && forall k | 0 <= k < runs :: Repeat(s, runs)[k] == s
  {
    if runs > 0 {
      RepeatAt(s, runs - 1);
    }
  }

  /** The schedule has `runs` places for each step, step after step. */
  lemma {:induction false} ScheduleAt(steps: seq<Statement>, runs: nat, i: nat, j: nat)
    requires i < |steps| && j < runs
    ensures |Schedule(steps, runs)| == |steps| * runs && 0 <= i * runs + j < |steps| * runs
    ensures Schedule(steps, runs)[i * runs + j] == steps[i]
  {
    var init, last := steps[..|steps| - 1], steps[|steps| - 1];
    ScheduleLength(init, runs);
    RepeatAt(last, runs);
    assert |steps| * runs == |init| * runs + runs;
    if i < |init| {
      ScheduleAt(init, runs, i, j);
    }
  }

  lemma {:induction false} ScheduleLength(steps: seq<Statement>, runs: nat)
    ensures |Schedule(steps, runs)| == |steps| * runs
  {
    if steps != [] {
      ScheduleLength(steps[..|steps| - 1], runs);
      RepeatAt(steps[|steps| - 1], runs);
      assert |steps| * runs == (|steps| - 1) * runs + runs;
    }
  }

  // ----- lineitem ---------------------------------------------------------------------------

  /** A hash that is not positive, or a multiple of 100, marks an update; one more than a multiple
      of 100 marks a delete; nothing else is in the feed. */
  lemma LineBucketIs(h: (int, int) -> int, r: Lineitems.Line)
    ensures Lineitems.Bucket(h, r) < 1 <==> h(r.orderkey, r.linenumber) <= 0 || h(r.orderkey, r.linenumber) % 100 == 0
    ensures 1 <= Lineitems.Bucket(h, r) < 2 <==> h(r.orderkey, r.linenumber) > 0 && h(r.orderkey, r.linenumber) % 100 == 1
  {
  }

  lemma {:induction false} DirectIs(h: (int, int) -> int, rows: seq<Lineitems.Line>)
    ensures forall x :: x in Lineitems.Direct(h, rows) <==>
              exists r | r in rows ::
                var a := h(r.orderkey, r.linenumber);
                if a <= 0 || a % 100 == 0 then x == r.(quantity := r.quantity + 1.0)
                else a % 100 != 1 && x == r
  {
    hide Lineitems.Bucket;
    if rows != [] {
      DirectIs(h, rows[1..]);
      LineBucketIs(h, rows[0]);
      assert forall r :: r in rows <==> r == rows[0] || r in rows[1..];
    }
  }

  lemma {:induction false} DirectUnique(h: (int, int) -> int, rows: seq<Lineitems.Line>)
    requires Lineitems.UniqueLines(rows)
    ensures Lineitems.UniqueLines(Lineitems.Direct(h, rows))
  {
    hide Lineitems.Bucket;
    if rows != [] {
      var rest := Lineitems.Direct(h, rows[1..]);
      DirectUnique(h, rows[1..]);
      DirectIs(h, rows[1..]);
      forall x | x in rest
        ensures x.orderkey != rows[0].orderkey || x.linenumber != rows[0].linenumber
      {
      }
    }
  }

  /** The first MERGE on `lineitem`: quantity plus one for the first bucket, the second is gone, the
      rest stays, each row once. */
  lemma MergeLines(h: (int, int) -> int, rows: seq<Lineitems.Line>)
    requires Lineitems.UniqueLines(rows)
    ensures var after := Lineitems.Merged(Lineitems.Changes(h, rows), rows);
            && Lineitems.UniqueLines(after)
            && forall x :: x in after <==>
                 exists r | r in rows ::
                   var a := h(r.orderkey, r.linenumber);
                   if a <= 0 || a % 100 == 0 then x == r.(quantity := r.quantity + 1.0)
                   else a % 100 != 1 && x == r
  {
    Lineitems.MergeIsDirect(h, rows);
    DirectIs(h, rows);
    DirectUnique(h, rows);
  }
}
