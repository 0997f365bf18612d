/** The merge workload on `lineitem`: a frozen feed of updates and deletes, applied by one MERGE. */
module Lineitems {
  import opened Text
  import Orders

  /** One row, with the columns that the statements do not touch as one. */
  datatype Line = Line(orderkey: int, linenumber: int, quantity: real, rest: string)

  datatype Op = U | D | Null

  datatype Change = Change(orderkey: int, linenumber: int, quantityNew: real, op: Op)

  /** `MOD(ABS(HASH(l_orderkey, l_linenumber)), 100)`, with the engine's hash unknown. */
  function Bucket(h: (int, int) -> int, r: Line): int {
    Orders.Mod(h(r.orderkey, r.linenumber), 100)
  }

  function OpFor(bucket: int): Op {
    if bucket < 1 then U else if bucket < 2 then D else Null
  }

  predicate SameLine(r: Line, c: Change) {
    r.orderkey == c.orderkey && r.linenumber == c.linenumber
  }

  predicate UniqueLines(rows: seq<Line>) {
    forall i, j | 0 <= i < j < |rows| :: rows[i].orderkey != rows[j].orderkey || rows[i].linenumber != rows[j].linenumber
  }

  /** The changes feed, built once from the loaded table. */
  function Changes(h: (int, int) -> int, rows: seq<Line>): seq<Change> {
    if rows == [] then []
    else
      var r := rows[0];
      (if Bucket(h, r) < 2 then [Change(r.orderkey, r.linenumber, r.quantity + 1.0, OpFor(Bucket(h, r)))] else [])
      + Changes(h, rows[1..])
  }

  function ChangeFor(feed: seq<Change>, r: Line): Option<Change> {
    if feed == [] then None
    else if SameLine(r, feed[0]) && feed[0].op != Null then Some(feed[0])
    else ChangeFor(feed[1..], r)
  }

  /** What MERGE leaves of one row. */
  function MergedLine(feed: seq<Change>, r: Line): seq<Line> {
    var c := ChangeFor(feed, r);
    if c.None? then [r] else if c.value.op == U then [r.(quantity := c.value.quantityNew)] else []
  }

  function Merged(feed: seq<Change>, rows: seq<Line>): seq<Line> {
    if rows == [] then [] else MergedLine(feed, rows[0]) + Merged(feed, rows[1..])
  }

  /** Two acting changes for one row: then MERGE is an error. */
  predicate Ambiguous(feed: seq<Change>) {
    exists i, j | 0 <= i < j < |feed| ::
      feed[i].orderkey == feed[j].orderkey && feed[i].linenumber == feed[j].linenumber
  }

  lemma {:induction false} ChangesAre(h: (int, int) -> int, rows: seq<Line>)
    ensures forall c | c in Changes(h, rows) :: exists r | r in rows :: SameLine(r, c) && Bucket(h, r) < 2
    ensures forall c | c in Changes(h, rows) :: c.op != Null
  {
    hide Bucket;
    if rows == [] {
    } else {
      var rest := Changes(h, rows[1..]);
      ChangesAre(h, rows[1..]);
      forall c | c in Changes(h, rows)
        ensures exists r | r in rows :: SameLine(r, c) && Bucket(h, r) < 2
      {
        if c in rest {
          var r :| r in rows[1..] && SameLine(r, c) && Bucket(h, r) < 2;
          assert r in rows;
        } else {
          assert SameLine(rows[0], c);
        }
      }
    }
  }

  /** The feed has one change for each key at most, and every change acts. */
  lemma {:induction false} FeedIsUnambiguous(h: (int, int) -> int, rows: seq<Line>)
    requires UniqueLines(rows)
    ensures !Ambiguous(Changes(h, rows))
    ensures forall c | c in Changes(h, rows) :: c.op == U || c.op == D
  {
    hide Bucket;
    ChangesAre(h, rows);
    if rows == [] {
    } else {
      FeedIsUnambiguous(h, rows[1..]);
      ChangesAre(h, rows[1..]);
      var all, rest := Changes(h, rows), Changes(h, rows[1..]);
      if all != rest {
        assert all[1..] == rest;
        forall j | 0 < j < |all|
          ensures all[0].orderkey != all[j].orderkey || all[0].linenumber != all[j].linenumber
        {
          assert all[j] == rest[j - 1] && rest[j - 1] in rest;
          var r :| r in rows[1..] && SameLine(r, all[j]) && Bucket(h, r) < 2;
        }
        forall i, j | 0 <= i < j < |all|
          ensures all[i].orderkey != all[j].orderkey || all[i].linenumber != all[j].linenumber
        {
          if i > 0 {
            assert all[i] == rest[i - 1] && all[j] == rest[j - 1];
          }
        }
      }
    }
  }

  lemma {:induction false} ChangeForIs(h: (int, int) -> int, rows: seq<Line>, r: Line)
    requires UniqueLines(rows)
    ensures r in rows ==>
              ChangeFor(Changes(h, rows), r) ==
              if Bucket(h, r) < 2 then Some(Change(r.orderkey, r.linenumber, r.quantity + 1.0, OpFor(Bucket(h, r))))
              else None
    ensures (forall x | x in rows :: x.orderkey != r.orderkey || x.linenumber != r.linenumber) ==>
              ChangeFor(Changes(h, rows), r) == None
  {
    hide Bucket;
    if rows == [] {
    } else {
      var rest := rows[1..];
      ChangeForIs(h, rest, r);
      assert rows == [rows[0]] + rest;
      assert Bucket(h, rows[0]) < 2 ==> Changes(h, rows)[1..] == Changes(h, rest);
      assert Bucket(h, rows[0]) >= 2 ==> Changes(h, rows) == Changes(h, rest);
      if r == rows[0] {
        assert forall x | x in rest :: x.orderkey != r.orderkey || x.linenumber != r.linenumber;
      }
    }
  }

  /** The closed form of the first MERGE: the first bucket's quantities go up by one, the second
      bucket's rows go, and the rest stays as it is, in order. */
  function Direct(h: (int, int) -> int, rows: seq<Line>): seq<Line> {
    if rows == [] then []
    else
      (if Bucket(h, rows[0]) < 1 then [rows[0].(quantity := rows[0].quantity + 1.0)]
       else if Bucket(h, rows[0]) < 2 then []
       else [rows[0]])
      + Direct(h, rows[1..])
  }

  lemma {:induction false} MergeSuffix(h: (int, int) -> int, rows: seq<Line>, k: nat)
    requires UniqueLines(rows) && k <= |rows|
    ensures Merged(Changes(h, rows), rows[k..]) == Direct(h, rows[k..])
    decreases |rows| - k
  {
    hide Bucket, Changes;
    if k == |rows| {
    } else {
      MergeSuffix(h, rows, k + 1);
      assert rows[k] in rows;
      ChangeForIs(h, rows, rows[k]);
      assert rows[k..][0] == rows[k] && rows[k..][1..] == rows[k + 1..];
    }
  }

  lemma MergeIsDirect(h: (int, int) -> int, rows: seq<Line>)
    requires UniqueLines(rows)
    ensures Merged(Changes(h, rows), rows) == Direct(h, rows)
  {
    MergeSuffix(h, rows, 0);
    assert rows[0..] == rows;
  }

  lemma {:induction false} MergedAppend(feed: seq<Change>, a: seq<Line>, b: seq<Line>)
    ensures Merged(feed, a + b) == Merged(feed, a) + Merged(feed, b)
  {
    hide MergedLine;
    if a == [] {
      assert a + b == b;
    } else {
      MergedAppend(feed, a[1..], b);
      assert (a + b)[1..] == a[1..] + b && (a + b)[0] == a[0];
    }
  }

  lemma {:induction false} ChangeForKey(feed: seq<Change>, r: Line, q: real)
    ensures ChangeFor(feed, r.(quantity := q)) == ChangeFor(feed, r)
  {
    if feed == [] {
    } else {
      ChangeForKey(feed[1..], r, q);
    }
  }

  /** Applying the MERGE twice is applying it once: after the first run the warm runs are no-ops. */
  lemma {:induction false} MergeIdempotent(feed: seq<Change>, rows: seq<Line>)
    ensures Merged(feed, Merged(feed, rows)) == Merged(feed, rows)
  {
    if rows == [] {
    } else {
      var r, rest := rows[0], rows[1..];
      MergeIdempotent(feed, rest);
      MergedAppend(feed, MergedLine(feed, r), Merged(feed, rest));
      var c := ChangeFor(feed, r);
      if c.Some? {
        ChangeForKey(feed, r, c.value.quantityNew);
      }
      assert Merged(feed, MergedLine(feed, r)) == MergedLine(feed, r);
    }
  }

  /** The table as the engine holds it. */
  class LineitemTable {
    var rows: seq<Line>
    const loaded: seq<Line>
    const h: (int, int) -> int
    const feed: seq<Change>
    ghost var merges: nat

    ghost predicate Valid()
      reads this
    {
      && UniqueLines(loaded) && feed == Changes(h, loaded)
      && rows == if merges == 0 then loaded else Direct(h, loaded)
    }

    constructor (loaded: seq<Line>, h: (int, int) -> int)
      requires UniqueLines(loaded)
      ensures Valid() && this.loaded == loaded && this.h == h && merges == 0
    {
      this.loaded, this.h, this.feed := loaded, h, Changes(h, loaded);
      rows, merges := loaded, 0;
    }

    /** One run of the measured step: however often it runs, the table is the closed form. */
    method MergeApply()
      requires Valid()
      modifies this
      ensures Valid() && merges == old(merges) + 1
      ensures rows == Merged(feed, old(rows))
    {
      MergeIsDirect(h, loaded);
      MergeIdempotent(feed, loaded);
      rows := Merged(feed, rows);
      merges := merges + 1;
    }
  }
}
