/**
 * History consolidation: raw price and exchange-rate samples older than a
 * cutoff are collapsed, per key (asset or exchange pair) and per UTC day, into
 * one record dated at midnight of that day.
 *
 * Both tables are handled by one generic algorithm over `Row<K, P>`: `K` is the
 * key the rows are fetched by, `P` the payload that distinguishes a candle
 * from a rate, and a `Merge` function turns a day's records into the payload
 * of the consolidated record. Timestamps are milliseconds since the epoch, as a
 * JavaScript `Date` holds them.
 */
module Maintenance {
  import opened Wrappers
  import Seqs

  type Timestamp = int

  const DayMillis: int := 86400000

  /** The UTC calendar day of a timestamp (days since the epoch). */
  function DayOf(t: Timestamp): int
  {
    t / DayMillis
  }

  /** Midnight UTC at the start of `day`. */
  function DayStart(day: int): Timestamp
  {
    day * DayMillis
  }

  lemma DayStartBounds(t: Timestamp)
    ensures DayStart(DayOf(t)) <= t < DayStart(DayOf(t)) + DayMillis
    ensures DayOf(DayStart(DayOf(t))) == DayOf(t)
  {
  }

  /** One history row: the key it belongs to, its date and its payload. */
  datatype Row<K, P> = Row(key: K, date: Timestamp, payload: P)

  /** Computes the payload of a consolidated record from the earliest record, the latest record and all records of the day. */
  type Merge<!K, !P> = (Row<K, P>, Row<K, P>, seq<Row<K, P>>) -> P

  /** The bookkeeping of a run: the table, the count of deleted records, and the count of inserted day records. */
  datatype Outcome<K, P> = Outcome(table: seq<Row<K, P>>, total: nat, merged: nat)

  /** The rows the run fetches for key `k`: those dated strictly before the cutoff. */
  predicate Fetched<K(==), P>(r: Row<K, P>, k: K, cutoff: Timestamp)
  {
    r.key == k && r.date < cutoff
  }

  predicate InBucket<K(==), P>(r: Row<K, P>, k: K, day: int, cutoff: Timestamp)
  {
    Fetched(r, k, cutoff) && DayOf(r.date) == day
  }

  // The filters the run selects rows by, named so that every use denotes the same function.

  function IsFetched<K(==), P>(k: K, cutoff: Timestamp): Row<K, P> -> bool
  {
    (r: Row<K, P>) => Fetched(r, k, cutoff)
  }

  function IsInBucket<K(==), P>(k: K, day: int, cutoff: Timestamp): Row<K, P> -> bool
  {
    (r: Row<K, P>) => InBucket(r, k, day, cutoff)
  }

  function NotInBucket<K(==), P>(k: K, day: int, cutoff: Timestamp): Row<K, P> -> bool
  {
    (r: Row<K, P>) => !InBucket(r, k, day, cutoff)
  }

  function IsOnDay<K, P>(day: int): Row<K, P> -> bool
  {
    (r: Row<K, P>) => DayOf(r.date) == day
  }

  function History<K(==,!new), P(!new)>(rows: seq<Row<K, P>>, k: K, cutoff: Timestamp): seq<Row<K, P>>
  {
    Seqs.Filter(IsFetched(k, cutoff), rows)
  }

  /** The records of key `k` on `day` that lie before the cutoff, in table order. */
  function Bucket<K(==,!new), P(!new)>(rows: seq<Row<K, P>>, k: K, day: int, cutoff: Timestamp): seq<Row<K, P>>
  {
    Seqs.Filter(IsInBucket(k, day, cutoff), rows)
  }

  /** The records of one day of `history`, in order. */
  function DayGroup<K(!new), P(!new)>(history: seq<Row<K, P>>, day: int): seq<Row<K, P>>
  {
    Seqs.Filter(IsOnDay(day), history)
  }

  /**
   * The position a stable sort by date moves to the front: a record of least
   * date, the first such in the input.
   */
  function EarliestIndex<K, P>(b: seq<Row<K, P>>): (i: nat)
    requires |b| > 0
    ensures i < |b|
    ensures forall j :: 0 <= j < |b| ==> b[i].date <= b[j].date
    ensures forall j :: 0 <= j < i ==> b[j].date > b[i].date
  {
    if |b| == 1 then 0
    else
      var i := EarliestIndex(b[..|b| - 1]);
      if b[|b| - 1].date < b[i].date then |b| - 1 else i
  }

  /**
   * The position a stable sort by date moves to the back: a record of greatest
   * date, the last such in the input.
   */
  function LatestIndex<K, P>(b: seq<Row<K, P>>): (i: nat)
    requires |b| > 0
    ensures i < |b|
    ensures forall j :: 0 <= j < |b| ==> b[j].date <= b[i].date
    ensures forall j :: i < j < |b| ==> b[j].date < b[i].date
  {
    if |b| == 1 then 0
    else
      var i := LatestIndex(b[..|b| - 1]);
      if b[|b| - 1].date >= b[i].date then |b| - 1 else i
  }

  /** What one day's records become: left alone when there is at most one, else one record at midnight. */
  function Collapse<K, P>(b: seq<Row<K, P>>, k: K, day: int, merge: Merge<K, P>): seq<Row<K, P>>
  {
    if |b| <= 1 then b
    else [Row(k, DayStart(day), merge(b[EarliestIndex(b)], b[LatestIndex(b)], b))]
  }

  /** Processing one day group: delete its records and insert the consolidated one. */
  function Step<K(==,!new), P(!new)>(o: Outcome<K, P>, k: K, day: int, cutoff: Timestamp, merge: Merge<K, P>): Outcome<K, P>
  {
    var b := Bucket(o.table, k, day, cutoff);
    if |b| <= 1 then o
    else
      Outcome(Seqs.Filter(NotInBucket(k, day, cutoff), o.table) + Collapse(b, k, day, merge),
              o.total + |b|, o.merged + 1)
  }

  function ProcessDays<K(==,!new), P(!new)>(o: Outcome<K, P>, k: K, days: seq<int>, cutoff: Timestamp, merge: Merge<K, P>): Outcome<K, P>
    decreases |days|
  {
    if days == [] then o
    else Step(ProcessDays(o, k, days[..|days| - 1], cutoff, merge), k, days[|days| - 1], cutoff, merge)
  }

  /** The distinct days of `s`, in order of first appearance (the iteration order of the grouping map). */
  function DistinctDays<K, P>(s: seq<Row<K, P>>): (r: seq<int>)
    ensures forall d :: d in r <==> exists i :: 0 <= i < |s| && DayOf(s[i].date) == d
    ensures forall i, j :: 0 <= i < j < |r| ==> r[i] != r[j]
    decreases |s|
  {
    if s == [] then []
    else
      var r := DistinctDays(s[..|s| - 1]);
      var d := DayOf(s[|s| - 1].date);
      assert forall i :: 0 <= i < |s| - 1 ==> s[..|s| - 1][i] == s[i];
      if d in r then r else r + [d]
  }

  /** One key: fetch its history, group it by day and process the groups in order. */
  function ProcessKey<K(==,!new), P(!new)>(o: Outcome<K, P>, k: K, cutoff: Timestamp, merge: Merge<K, P>): Outcome<K, P>
  {
    ProcessDays(o, k, DistinctDays(History(o.table, k, cutoff)), cutoff, merge)
  }

  function ProcessKeys<K(==,!new), P(!new)>(o: Outcome<K, P>, keys: seq<K>, cutoff: Timestamp, merge: Merge<K, P>): Outcome<K, P>
    decreases |keys|
  {
    if keys == [] then o
    else ProcessKey(ProcessKeys(o, keys[..|keys| - 1], cutoff, merge), keys[|keys| - 1], cutoff, merge)
  }

  /** A whole run over the keys, in the order they are fetched. */
  function Consolidate<K(==,!new), P(!new)>(rows: seq<Row<K, P>>, keys: seq<K>, cutoff: Timestamp, merge: Merge<K, P>): Outcome<K, P>
  {
    ProcessKeys(Outcome(rows, 0, 0), keys, cutoff, merge)
  }

  /** A row no run over `keys` touches: at or after the cutoff, or of another key. */
  predicate Outside<K(==), P>(r: Row<K, P>, keys: seq<K>, cutoff: Timestamp)
  {
    r.date >= cutoff || r.key !in keys
  }

  function IsOutside<K(==), P>(keys: seq<K>, cutoff: Timestamp): Row<K, P> -> bool
  {
    (r: Row<K, P>) => Outside(r, keys, cutoff)
  }

  function OutsideRows<K(==,!new), P(!new)>(rows: seq<Row<K, P>>, keys: seq<K>, cutoff: Timestamp): seq<Row<K, P>>
  {
    Seqs.Filter(IsOutside(keys, cutoff), rows)
  }

  // ---------------------------------------------------------------------------
  // One step

  lemma CollapseIdempotent<K, P>(b: seq<Row<K, P>>, k: K, day: int, merge: Merge<K, P>)
    ensures |Collapse(b, k, day, merge)| <= 1
    ensures Collapse(Collapse(b, k, day, merge), k, day, merge) == Collapse(b, k, day, merge)
    ensures |Collapse(b, k, day, merge)| == 0 <==> |b| == 0
  {
  }

  /** The record a step inserts belongs to the bucket it replaces. */
  lemma MergedInBucket<K(!new), P(!new)>(rows: seq<Row<K, P>>, k: K, day: int, cutoff: Timestamp, merge: Merge<K, P>)
    requires |Bucket(rows, k, day, cutoff)| > 1
    ensures forall r :: r in Collapse(Bucket(rows, k, day, cutoff), k, day, merge) ==> InBucket(r, k, day, cutoff)
  {
    var b := Bucket(rows, k, day, cutoff);
    assert b[0] in b;
    assert InBucket(b[0], k, day, cutoff);
    DayStartBounds(b[0].date);
  }

  /** A step collapses its own bucket and leaves every other bucket alone. */
  lemma StepBucket<K(!new), P(!new)>(o: Outcome<K, P>, k: K, day: int, cutoff: Timestamp, merge: Merge<K, P>, k': K, day': int)
    ensures Bucket(Step(o, k, day, cutoff, merge).table, k', day', cutoff)
         == if k' == k && day' == day then Collapse(Bucket(o.table, k, day, cutoff), k, day, merge)
            else Bucket(o.table, k', day', cutoff)
  {
    if |Bucket(o.table, k, day, cutoff)| > 1 {
      if k' == k && day' == day {
        StepOwnBucket(o, k, day, cutoff, merge);
      } else {
        StepOtherBucket(o, k, day, cutoff, merge, k', day');
      }
    }
  }

  lemma StepOwnBucket<K(!new), P(!new)>(o: Outcome<K, P>, k: K, day: int, cutoff: Timestamp, merge: Merge<K, P>)
    requires |Bucket(o.table, k, day, cutoff)| > 1
    ensures Bucket(Step(o, k, day, cutoff, merge).table, k, day, cutoff) == Collapse(Bucket(o.table, k, day, cutoff), k, day, merge)
  {
    var kept := Seqs.Filter(NotInBucket(k, day, cutoff), o.table);
    var c := Collapse(Bucket(o.table, k, day, cutoff), k, day, merge);
    Seqs.FilterConcat(IsInBucket(k, day, cutoff), kept, c);
    DeletionEmptiesBucket(o.table, k, day, cutoff);
    CollapsedInOwnBucket(o.table, k, day, cutoff, merge);
  }

  /** Deleting a bucket leaves none of its records. */
  lemma DeletionEmptiesBucket<K(!new), P(!new)>(rows: seq<Row<K, P>>, k: K, day: int, cutoff: Timestamp)
    ensures Seqs.Filter(IsInBucket(k, day, cutoff), Seqs.Filter(NotInBucket(k, day, cutoff), rows)) == []
  {
    Seqs.FilterDropsAll(IsInBucket(k, day, cutoff), Seqs.Filter(NotInBucket(k, day, cutoff), rows));
  }

  /** The record a step inserts is all its own bucket then holds. */
  lemma CollapsedInOwnBucket<K(!new), P(!new)>(rows: seq<Row<K, P>>, k: K, day: int, cutoff: Timestamp, merge: Merge<K, P>)
    requires |Bucket(rows, k, day, cutoff)| > 1
    ensures Seqs.Filter(IsInBucket(k, day, cutoff), Collapse(Bucket(rows, k, day, cutoff), k, day, merge))
         == Collapse(Bucket(rows, k, day, cutoff), k, day, merge)
  {
    MergedInBucket(rows, k, day, cutoff, merge);
    Seqs.FilterKeepsAll(IsInBucket(k, day, cutoff), Collapse(Bucket(rows, k, day, cutoff), k, day, merge));
  }

  lemma StepOtherBucket<K(!new), P(!new)>(o: Outcome<K, P>, k: K, day: int, cutoff: Timestamp, merge: Merge<K, P>, k': K, day': int)
    requires |Bucket(o.table, k, day, cutoff)| > 1
    requires k' != k || day' != day
    ensures Bucket(Step(o, k, day, cutoff, merge).table, k', day', cutoff) == Bucket(o.table, k', day', cutoff)
  {
    var kept := Seqs.Filter(NotInBucket(k, day, cutoff), o.table);
    var c := Collapse(Bucket(o.table, k, day, cutoff), k, day, merge);
    Seqs.FilterConcat(IsInBucket(k', day', cutoff), kept, c);
    DeletionKeepsOtherBucket(o.table, k, day, cutoff, k', day');
    CollapsedNotInOtherBucket(o.table, k, day, cutoff, merge, k', day');
  }

  /** Deleting one bucket keeps every record of another. */
  lemma DeletionKeepsOtherBucket<K(!new), P(!new)>(rows: seq<Row<K, P>>, k: K, day: int, cutoff: Timestamp, k': K, day': int)
    requires k' != k || day' != day
    ensures Seqs.Filter(IsInBucket(k', day', cutoff), Seqs.Filter(NotInBucket(k, day, cutoff), rows)) == Bucket(rows, k', day', cutoff)
  {
    Seqs.FilterCompose(IsInBucket(k', day', cutoff), NotInBucket(k, day, cutoff), IsInBucket(k', day', cutoff), rows);
  }

  /** The record a step inserts belongs to no other bucket. */
  lemma CollapsedNotInOtherBucket<K(!new), P(!new)>(rows: seq<Row<K, P>>, k: K, day: int, cutoff: Timestamp, merge: Merge<K, P>,
                                                   k': K, day': int)
    requires |Bucket(rows, k, day, cutoff)| > 1
    requires k' != k || day' != day
    ensures Seqs.Filter(IsInBucket(k', day', cutoff), Collapse(Bucket(rows, k, day, cutoff), k, day, merge)) == []
  {
    MergedInBucket(rows, k, day, cutoff, merge);
    Seqs.FilterDropsAll(IsInBucket(k', day', cutoff), Collapse(Bucket(rows, k, day, cutoff), k, day, merge));
  }

  /** A step deletes `|b|` records, inserts one, and counts the deletions. */
  lemma StepCounts<K(!new), P(!new)>(o: Outcome<K, P>, k: K, day: int, cutoff: Timestamp, merge: Merge<K, P>)
    ensures var s := Step(o, k, day, cutoff, merge);
      |s.table| + s.total + o.merged == |o.table| + o.total + s.merged
      && s.total - o.total >= 2 * (s.merged - o.merged) && s.merged >= o.merged
  {
    var b := Bucket(o.table, k, day, cutoff);
    if |b| > 1 {
      Seqs.FilterLengthSplit(IsInBucket(k, day, cutoff), NotInBucket(k, day, cutoff), o.table);
    }
  }

  /** A step on a key of `keys` keeps every row outside the run. */
  lemma StepOutside<K(!new), P(!new)>(o: Outcome<K, P>, k: K, day: int, cutoff: Timestamp, merge: Merge<K, P>, keys: seq<K>)
    requires k in keys
    ensures OutsideRows(Step(o, k, day, cutoff, merge).table, keys, cutoff) == OutsideRows(o.table, keys, cutoff)
  {
    if |Bucket(o.table, k, day, cutoff)| > 1 {
      var kept := Seqs.Filter(NotInBucket(k, day, cutoff), o.table);
      var c := Collapse(Bucket(o.table, k, day, cutoff), k, day, merge);
      Seqs.FilterConcat(IsOutside(keys, cutoff), kept, c);
      DeletionKeepsOutside(o.table, k, day, cutoff, keys);
      CollapsedNotOutside(o.table, k, day, cutoff, merge, keys);
    }
  }

  /** Deleting a bucket of a key of `keys` deletes no row outside the run. */
  lemma DeletionKeepsOutside<K(!new), P(!new)>(rows: seq<Row<K, P>>, k: K, day: int, cutoff: Timestamp, keys: seq<K>)
    requires k in keys
    ensures Seqs.Filter(IsOutside(keys, cutoff), Seqs.Filter(NotInBucket(k, day, cutoff), rows)) == OutsideRows(rows, keys, cutoff)
  {
    Seqs.FilterCompose(IsOutside(keys, cutoff), NotInBucket(k, day, cutoff), IsOutside(keys, cutoff), rows);
  }

  /** The record a step inserts for a key of `keys` lies inside the run. */
  lemma CollapsedNotOutside<K(!new), P(!new)>(rows: seq<Row<K, P>>, k: K, day: int, cutoff: Timestamp, merge: Merge<K, P>, keys: seq<K>)
    requires k in keys
    requires |Bucket(rows, k, day, cutoff)| > 1
    ensures Seqs.Filter(IsOutside(keys, cutoff), Collapse(Bucket(rows, k, day, cutoff), k, day, merge)) == []
  {
    MergedInBucket(rows, k, day, cutoff, merge);
    Seqs.FilterDropsAll(IsOutside(keys, cutoff), Collapse(Bucket(rows, k, day, cutoff), k, day, merge));
  }

  // ---------------------------------------------------------------------------
  // One key

  lemma {:induction false} DaysBucket<K(!new), P(!new)>(o: Outcome<K, P>, k: K, days: seq<int>, cutoff: Timestamp, merge: Merge<K, P>, k': K, day': int)
    ensures Bucket(ProcessDays(o, k, days, cutoff, merge).table, k', day', cutoff)
         == if k' == k && day' in days then Collapse(Bucket(o.table, k', day', cutoff), k', day', merge)
            else Bucket(o.table, k', day', cutoff)
    decreases |days|
  {
    if days != [] {
      var prefix := days[..|days| - 1];
      var last := days[|days| - 1];
      assert days == prefix + [last];
      DaysBucket(o, k, prefix, cutoff, merge, k', day');
      StepBucket(ProcessDays(o, k, prefix, cutoff, merge), k, last, cutoff, merge, k', day');
      CollapseIdempotent(Bucket(o.table, k', day', cutoff), k', day', merge);
    }
  }

  lemma {:induction false} DaysCounts<K(!new), P(!new)>(o: Outcome<K, P>, k: K, days: seq<int>, cutoff: Timestamp, merge: Merge<K, P>)
    ensures var s := ProcessDays(o, k, days, cutoff, merge);
      |s.table| + s.total + o.merged == |o.table| + o.total + s.merged
      && s.total - o.total >= 2 * (s.merged - o.merged) && s.merged >= o.merged
    decreases |days|
  {
    if days != [] {
      var prefix := days[..|days| - 1];
      DaysCounts(o, k, prefix, cutoff, merge);
      StepCounts(ProcessDays(o, k, prefix, cutoff, merge), k, days[|days| - 1], cutoff, merge);
    }
  }

  lemma {:induction false} DaysOutside<K(!new), P(!new)>(o: Outcome<K, P>, k: K, days: seq<int>, cutoff: Timestamp, merge: Merge<K, P>, keys: seq<K>)
    requires k in keys
    ensures OutsideRows(ProcessDays(o, k, days, cutoff, merge).table, keys, cutoff) == OutsideRows(o.table, keys, cutoff)
    decreases |days|
  {
    if days != [] {
      var prefix := days[..|days| - 1];
      DaysOutside(o, k, prefix, cutoff, merge, keys);
      StepOutside(ProcessDays(o, k, prefix, cutoff, merge), k, days[|days| - 1], cutoff, merge, keys);
    }
  }

  /** Every day with a fetched record of `k` is among the grouped days. */
  lemma BucketListed<K(!new), P(!new)>(rows: seq<Row<K, P>>, k: K, day: int, cutoff: Timestamp)
    ensures Bucket(rows, k, day, cutoff) != [] ==> day in DistinctDays(History(rows, k, cutoff))
  {
    var h := History(rows, k, cutoff);
    var b := Bucket(rows, k, day, cutoff);
    if b != [] {
      assert b[0] in b;
      assert b[0] in h;
      var i :| 0 <= i < |h| && h[i] == b[0];
      assert DayOf(h[i].date) == day;
    }
  }

  /** Processing one key collapses every bucket of that key. */
  lemma ProcessKeyBucket<K(!new), P(!new)>(o: Outcome<K, P>, k: K, cutoff: Timestamp, merge: Merge<K, P>, k': K, day': int)
    ensures Bucket(ProcessKey(o, k, cutoff, merge).table, k', day', cutoff)
         == if k' == k then Collapse(Bucket(o.table, k', day', cutoff), k', day', merge)
            else Bucket(o.table, k', day', cutoff)
  {
    var days := DistinctDays(History(o.table, k, cutoff));
    DaysBucket(o, k, days, cutoff, merge, k', day');
    BucketListed(o.table, k, day', cutoff);
  }

  // ---------------------------------------------------------------------------
  // A whole run

  lemma {:induction false} KeysBucket<K(!new), P(!new)>(o: Outcome<K, P>, keys: seq<K>, cutoff: Timestamp, merge: Merge<K, P>, k': K, day': int)
    ensures Bucket(ProcessKeys(o, keys, cutoff, merge).table, k', day', cutoff)
         == if k' in keys then Collapse(Bucket(o.table, k', day', cutoff), k', day', merge)
            else Bucket(o.table, k', day', cutoff)
    decreases |keys|
  {
    if keys != [] {
      var prefix := keys[..|keys| - 1];
      var last := keys[|keys| - 1];
      assert keys == prefix + [last];
      KeysBucket(o, prefix, cutoff, merge, k', day');
      ProcessKeyBucket(ProcessKeys(o, prefix, cutoff, merge), last, cutoff, merge, k', day');
      CollapseIdempotent(Bucket(o.table, k', day', cutoff), k', day', merge);
    }
  }

  lemma {:induction false} KeysCounts<K(!new), P(!new)>(o: Outcome<K, P>, keys: seq<K>, cutoff: Timestamp, merge: Merge<K, P>)
    ensures var s := ProcessKeys(o, keys, cutoff, merge);
      |s.table| + s.total + o.merged == |o.table| + o.total + s.merged
      && s.total - o.total >= 2 * (s.merged - o.merged) && s.merged >= o.merged
    decreases |keys|
  {
    if keys != [] {
      var prefix := keys[..|keys| - 1];
      KeysCounts(o, prefix, cutoff, merge);
      var p := ProcessKeys(o, prefix, cutoff, merge);
      DaysCounts(p, keys[|keys| - 1], DistinctDays(History(p.table, keys[|keys| - 1], cutoff)), cutoff, merge);
    }
  }

  lemma {:induction false} KeysOutside<K(!new), P(!new)>(o: Outcome<K, P>, keys: seq<K>, cutoff: Timestamp, merge: Merge<K, P>, all: seq<K>)
    requires forall k :: k in keys ==> k in all
    ensures OutsideRows(ProcessKeys(o, keys, cutoff, merge).table, all, cutoff) == OutsideRows(o.table, all, cutoff)
    decreases |keys|
  {
    if keys != [] {
      var prefix := keys[..|keys| - 1];
      var last := keys[|keys| - 1];
      assert last in keys;
      KeysOutside(o, prefix, cutoff, merge, all);
      var p := ProcessKeys(o, prefix, cutoff, merge);
      DaysOutside(p, last, DistinctDays(History(p.table, last, cutoff)), cutoff, merge, all);
    }
  }

  /**
   * After a run, each day of each processed key holds what `Collapse` makes of
   * it: unchanged when it had at most one record before the cutoff, otherwise
   * exactly one record dated at midnight UTC. Buckets of other keys are
   * unchanged.
   */
  lemma ConsolidatedBuckets<K(!new), P(!new)>(rows: seq<Row<K, P>>, keys: seq<K>, cutoff: Timestamp, merge: Merge<K, P>, k: K, day: int)
    ensures var b := Bucket(rows, k, day, cutoff);
      var after := Bucket(Consolidate(rows, keys, cutoff, merge).table, k, day, cutoff);
      && (k !in keys || |b| <= 1 ==> after == b)
      && (k in keys && |b| > 1 ==>
            after == [Row(k, DayStart(day), merge(b[EarliestIndex(b)], b[LatestIndex(b)], b))]
            && after[0].date < cutoff)
  {
    KeysBucket(Outcome(rows, 0, 0), keys, cutoff, merge, k, day);
    var b := Bucket(rows, k, day, cutoff);
    if k in keys && |b| > 1 {
      MergedInBucket(rows, k, day, cutoff, merge);
      assert Collapse(b, k, day, merge)[0] in Collapse(b, k, day, merge);
    }
  }

  /** Rows at or after the cutoff, and rows of keys not processed, survive a run in their order. */
  lemma ConsolidateKeepsOutside<K(!new), P(!new)>(rows: seq<Row<K, P>>, keys: seq<K>, cutoff: Timestamp, merge: Merge<K, P>)
    ensures OutsideRows(Consolidate(rows, keys, cutoff, merge).table, keys, cutoff) == OutsideRows(rows, keys, cutoff)
  {
    KeysOutside(Outcome(rows, 0, 0), keys, cutoff, merge, keys);
  }

  /**
   * `total` counts the deleted records: the table shrinks by it and grows by
   * one record per consolidated day, and every consolidated day had at least
   * two records.
   */
  lemma ConsolidateCounts<K(!new), P(!new)>(rows: seq<Row<K, P>>, keys: seq<K>, cutoff: Timestamp, merge: Merge<K, P>)
    ensures var o := Consolidate(rows, keys, cutoff, merge);
      |o.table| == |rows| - o.total + o.merged && o.total >= 2 * o.merged
  {
    KeysCounts(Outcome(rows, 0, 0), keys, cutoff, merge);
  }

  /** A table whose processed buckets hold at most one record each is a fixed point of a run. */
  lemma {:induction false} KeysNoop<K(!new), P(!new)>(o: Outcome<K, P>, keys: seq<K>, cutoff: Timestamp, merge: Merge<K, P>, all: seq<K>)
    requires forall k, day :: k in all ==> |Bucket(o.table, k, day, cutoff)| <= 1
    requires forall k :: k in keys ==> k in all
    ensures ProcessKeys(o, keys, cutoff, merge) == o
    decreases |keys|
  {
    if keys != [] {
      var prefix := keys[..|keys| - 1];
      var last := keys[|keys| - 1];
      assert last in keys;
      KeysNoop(o, prefix, cutoff, merge, all);
      DaysNoop(o, last, DistinctDays(History(o.table, last, cutoff)), cutoff, merge);
    }
  }

  lemma {:induction false} DaysNoop<K(!new), P(!new)>(o: Outcome<K, P>, k: K, days: seq<int>, cutoff: Timestamp, merge: Merge<K, P>)
    requires forall day :: |Bucket(o.table, k, day, cutoff)| <= 1
    ensures ProcessDays(o, k, days, cutoff, merge) == o
    decreases |days|
  {
    if days != [] {
      DaysNoop(o, k, days[..|days| - 1], cutoff, merge);
      assert |Bucket(o.table, k, days[|days| - 1], cutoff)| <= 1;
    }
  }

  /** Running again with the same cutoff changes nothing and consolidates nothing. */
  lemma ConsolidateIdempotent<K(!new), P(!new)>(rows: seq<Row<K, P>>, keys: seq<K>, cutoff: Timestamp, merge: Merge<K, P>)
    ensures var once := Consolidate(rows, keys, cutoff, merge).table;
      Consolidate(once, keys, cutoff, merge) == Outcome(once, 0, 0)
  {
    var once := Consolidate(rows, keys, cutoff, merge).table;
    forall k, day | k in keys
      ensures |Bucket(once, k, day, cutoff)| <= 1
    {
      KeysBucket(Outcome(rows, 0, 0), keys, cutoff, merge, k, day);
      CollapseIdempotent(Bucket(rows, k, day, cutoff), k, day, merge);
    }
    KeysNoop(Outcome(once, 0, 0), keys, cutoff, merge, keys);
  }

  // ---------------------------------------------------------------------------
  // The two tables

  type AssetId = string
  type PairId = string

  /** The price columns of an `asset_price_history` row; `close` is the only one declared not null. */
  datatype Candle = Candle(open: Option<real>, high: Option<real>, low: Option<real>, close: real, volume: Option<int>)

  type PriceRow = Row<AssetId, Candle>

  /** An `exchange_rate_history` row carries its rate as payload. */
  type RateRow = Row<PairId, real>

  /** `open ?? close`; the final fallback to 0 is never reached because `close` is not null. */
  function OpenPrice(c: Candle): real
  {
    if c.open.Some? then c.open.value else c.close
  }

  function HighPrice(c: Candle): real
  {
    if c.high.Some? then c.high.value else c.close
  }

  function LowPrice(c: Candle): real
  {
    if c.low.Some? then c.low.value else c.close
  }

  function VolumeOf(c: Candle): int
  {
    if c.volume.Some? then c.volume.value else 0
  }

  /** The largest of `seed` and the high prices in `b`. */
  function MaxHigh(b: seq<PriceRow>, seed: real): (m: real)
    ensures seed <= m
    ensures forall i :: 0 <= i < |b| ==> HighPrice(b[i].payload) <= m
    ensures m == seed || exists i :: 0 <= i < |b| && HighPrice(b[i].payload) == m
    decreases |b|
  {
    if b == [] then seed
    else
      var m := MaxHigh(b[..|b| - 1], seed);
      var h := HighPrice(b[|b| - 1].payload);
      assert forall i :: 0 <= i < |b| - 1 ==> b[..|b| - 1][i] == b[i];
      if h > m then h else m
  }

  /** The smallest of `seed` and the low prices in `b`. */
  function MinLow(b: seq<PriceRow>, seed: real): (m: real)
    ensures m <= seed
    ensures forall i :: 0 <= i < |b| ==> m <= LowPrice(b[i].payload)
    ensures m == seed || exists i :: 0 <= i < |b| && LowPrice(b[i].payload) == m
    decreases |b|
  {
    if b == [] then seed
    else
      var m := MinLow(b[..|b| - 1], seed);
      var l := LowPrice(b[|b| - 1].payload);
      assert forall i :: 0 <= i < |b| - 1 ==> b[..|b| - 1][i] == b[i];
      if l < m then l else m
  }

  /** The volumes of `b` added up, a missing volume counting as 0. */
  function TotalVolume(b: seq<PriceRow>): int
    decreases |b|
  {
    if b == [] then 0 else TotalVolume(b[..|b| - 1]) + VolumeOf(b[|b| - 1].payload)
  }

  /** The daily candle of one day's price records. */
  function CandleOf(first: PriceRow, last: PriceRow, b: seq<PriceRow>): Candle
  {
    Candle(Some(OpenPrice(first.payload)),
           Some(MaxHigh(b, HighPrice(first.payload))),
           Some(MinLow(b, LowPrice(first.payload))),
           last.payload.close,
           Some(TotalVolume(b)))
  }

  /** The consolidated rate of a day is the rate of its latest record. */
  function RateOf(first: RateRow, last: RateRow, b: seq<RateRow>): real
  {
    last.payload
  }

  /**
   * A daily candle opens at the earliest sample, closes at the latest, and its
   * high and low are the extreme prices of the day's samples.
   */
  lemma DailyCandle(b: seq<PriceRow>)
    requires |b| > 0
    ensures var first := b[EarliestIndex(b)];
      var last := b[LatestIndex(b)];
      var c := CandleOf(first, last, b);
      && (forall r :: r in b ==> first.date <= r.date && r.date <= last.date)
      && c.open == Some(OpenPrice(first.payload))
      && c.close == last.payload.close
      && c.high.Some? && (forall r :: r in b ==> HighPrice(r.payload) <= c.high.value)
      && (exists r :: r in b && HighPrice(r.payload) == c.high.value)
      && c.low.Some? && (forall r :: r in b ==> c.low.value <= LowPrice(r.payload))
      && (exists r :: r in b && LowPrice(r.payload) == c.low.value)
      && c.volume == Some(TotalVolume(b))
  {
    var first := b[EarliestIndex(b)];
    var c := CandleOf(first, b[LatestIndex(b)], b);
    assert first in b;
    assert c.high.value == HighPrice(first.payload) || exists i :: 0 <= i < |b| && HighPrice(b[i].payload) == c.high.value;
    assert c.low.value == LowPrice(first.payload) || exists i :: 0 <= i < |b| && LowPrice(b[i].payload) == c.low.value;
  }

  /** A consolidated rate is the rate of a sample of the latest time of the day, the last such in table order. */
  lemma DailyRate(b: seq<RateRow>)
    requires |b| > 0
    ensures var i := LatestIndex(b);
      && RateOf(b[EarliestIndex(b)], b[i], b) == b[i].payload
      && (forall j :: 0 <= j < |b| ==> b[j].date <= b[i].date)
      && (forall j :: i < j < |b| ==> b[j].date < b[i].date)
  {
  }

  // ---------------------------------------------------------------------------
  // The imperative run

  /** A day group of the fetched history is the bucket of that day. */
  lemma GroupIsBucket<K(!new), P(!new)>(rows: seq<Row<K, P>>, k: K, day: int, cutoff: Timestamp)
    ensures DayGroup(History(rows, k, cutoff), day) == Bucket(rows, k, day, cutoff)
  {
    Seqs.FilterCompose(IsOnDay(day), IsFetched(k, cutoff),
                       IsInBucket(k, day, cutoff), rows);
  }

  /** Every day of a record of `history` is among its distinct days. */
  lemma DayGroupListed<K(!new), P(!new)>(history: seq<Row<K, P>>, day: int)
    ensures DayGroup(history, day) != [] ==> day in DistinctDays(history)
  {
    var g := DayGroup(history, day);
    if g != [] {
      assert g[0] in g;
      var i :| 0 <= i < |history| && history[i] == g[0];
      assert DayOf(history[i].date) == day;
    }
  }

  /** Extending the history by one record extends the group of that record's day only. */
  lemma DayGroupSnoc<K(!new), P(!new)>(history: seq<Row<K, P>>, j: nat, day: int)
    requires j < |history|
    ensures DayGroup(history[..j + 1], day)
            == DayGroup(history[..j], day) + (if DayOf(history[j].date) == day then [history[j]] else [])
  {
    assert history[..j + 1][..j] == history[..j];
  }

  /** Extending the history by one record lists that record's day if it is new. */
  lemma DistinctDaysSnoc<K, P>(history: seq<Row<K, P>>, j: nat)
    requires j < |history|
    ensures var days := DistinctDays(history[..j]);
            var d := DayOf(history[j].date);
            DistinctDays(history[..j + 1]) == if d in days then days else days + [d]
  {
    assert history[..j + 1][..j] == history[..j];
  }

  /** Groups `history` by UTC day into a map, remembering the order in which days first appear. */
  method GroupByDay<K(!new), P(!new)>(history: seq<Row<K, P>>) returns (days: seq<int>, groups: map<int, seq<Row<K, P>>>)
    ensures days == DistinctDays(history)
    ensures forall d :: d in groups <==> d in days
    ensures forall d :: d in groups ==> groups[d] == DayGroup(history, d)
  {
    days := [];
    groups := map[];
    for j := 0 to |history|
      invariant days == DistinctDays(history[..j])
      invariant forall d :: d in groups <==> d in days
      invariant forall d :: d in groups ==> groups[d] == DayGroup(history[..j], d)
    {
      var record := history[j];
      var dayKey := DayOf(record.date);
      DistinctDaysSnoc(history, j);
      DayGroupListed(history[..j], dayKey);
      var previous := if dayKey in groups then groups[dayKey] else [];
      assert previous == DayGroup(history[..j], dayKey);
      if dayKey !in groups {
        days := days + [dayKey];
      }
      groups := groups[dayKey := previous + [record]];
      forall d | d in groups
        ensures groups[d] == DayGroup(history[..j + 1], d)
      {
        DayGroupSnoc(history, j, d);
      }
    }
    assert history[..|history|] == history;
  }

  /** One day group: delete its records and insert the consolidated one, when there are two or more. */
  method ConsolidateDay<K(==,!new), P(!new)>(table0: seq<Row<K, P>>, total0: nat, ghost merged0: nat, k: K, day: int,
                                            records: seq<Row<K, P>>, cutoff: Timestamp, merge: Merge<K, P>)
    returns (table: seq<Row<K, P>>, totalConsolidated: nat, ghost merged: nat)
    requires records == Bucket(table0, k, day, cutoff)
    ensures var o := Step(Outcome(table0, total0, merged0), k, day, cutoff, merge);
      table == o.table && totalConsolidated == o.total && merged == o.merged
  {
    table, totalConsolidated, merged := table0, total0, merged0;
    if |records| <= 1 {
      return;
    }
    var first := records[EarliestIndex(records)];
    var last := records[LatestIndex(records)];
    var consolidated := Row(k, DayStart(day), merge(first, last, records));
    table := Seqs.Filter(NotInBucket(k, day, cutoff), table) + [consolidated];
    totalConsolidated := totalConsolidated + |records|;
    merged := merged + 1;
  }

  /**
   * One key of the consolidation loop: fetch the key's rows before the
   * cutoff, group them by day, and replace each day of two or more records by
   * one record at midnight, counting the deleted records.
   */
  method ConsolidateKey<K(==,!new), P(!new)>(table0: seq<Row<K, P>>, total0: nat, ghost merged0: nat, k: K, cutoff: Timestamp, merge: Merge<K, P>)
    returns (table: seq<Row<K, P>>, totalConsolidated: nat, ghost merged: nat)
    ensures Outcome(table, totalConsolidated, merged) == ProcessKey(Outcome(table0, total0, merged0), k, cutoff, merge)
  {
    table, totalConsolidated, merged := table0, total0, merged0;
    var history := History(table, k, cutoff);
    if |history| == 0 {
      return;
    }
    var days, groups := GroupByDay(history);
    forall d | d in days
      ensures Bucket(table, k, d, cutoff) == groups[d]
    {
      GroupIsBucket(table, k, d, cutoff);
    }
    table, totalConsolidated, merged := ConsolidateDays(table, totalConsolidated, merged, k, days, groups, cutoff, merge);
  }

  /**
   * The loop over one key's day groups: each group of two or more records is replaced by
   * its consolidated record, in the order the days were first seen.
   */
  method ConsolidateDays<K(==,!new), P(!new)>(table0: seq<Row<K, P>>, total0: nat, ghost merged0: nat, k: K,
                                             days: seq<int>, groups: map<int, seq<Row<K, P>>>,
                                             cutoff: Timestamp, merge: Merge<K, P>)
    returns (table: seq<Row<K, P>>, totalConsolidated: nat, ghost merged: nat)
    requires forall a, b :: 0 <= a < b < |days| ==> days[a] != days[b]
    requires forall d :: d in days ==> d in groups && Bucket(table0, k, d, cutoff) == groups[d]
    ensures Outcome(table, totalConsolidated, merged) == ProcessDays(Outcome(table0, total0, merged0), k, days, cutoff, merge)
  {
    table, totalConsolidated, merged := table0, total0, merged0;
    ghost var start := Outcome(table, totalConsolidated, merged);
    for j := 0 to |days|
      invariant Outcome(table, totalConsolidated, merged) == ProcessDays(start, k, days[..j], cutoff, merge)
      invariant forall j' :: j <= j' < |days| ==> Bucket(table, k, days[j'], cutoff) == groups[days[j']]
    {
      var day := days[j];
      assert days[..j + 1][..j] == days[..j];
      ghost var before := Outcome(table, totalConsolidated, merged);
      table, totalConsolidated, merged := ConsolidateDay(table, totalConsolidated, merged, k, day, groups[day], cutoff, merge);
      LaterBucketsKept(before, k, days, j, cutoff, merge, groups);
    }
    assert days[..|days|] == days;
  }

  /** Processing the day `days[j]` leaves the buckets of the later, distinct days as they were grouped. */
  lemma LaterBucketsKept<K(!new), P(!new)>(o: Outcome<K, P>, k: K, days: seq<int>, j: nat, cutoff: Timestamp,
                                          merge: Merge<K, P>, groups: map<int, seq<Row<K, P>>>)
    requires j < |days|
    requires forall a, b :: 0 <= a < b < |days| ==> days[a] != days[b]
    requires forall d :: d in days ==> d in groups
    requires forall j' :: j < j' < |days| ==> Bucket(o.table, k, days[j'], cutoff) == groups[days[j']]
    ensures forall j' :: j < j' < |days| ==>
      Bucket(Step(o, k, days[j], cutoff, merge).table, k, days[j'], cutoff) == groups[days[j']]
  {
    forall j' | j < j' < |days|
      ensures Bucket(Step(o, k, days[j], cutoff, merge).table, k, days[j'], cutoff) == groups[days[j']]
    {
      StepBucket(o, k, days[j], cutoff, merge, k, days[j']);
    }
  }

  /** The consolidation loop shared by both tables, over the keys in the order they are fetched. */
  method ConsolidateRows<K(==,!new), P(!new)>(keys: seq<K>, rows: seq<Row<K, P>>, cutoff: Timestamp, merge: Merge<K, P>)
    returns (table: seq<Row<K, P>>, totalConsolidated: nat)
    ensures var o := Consolidate(rows, keys, cutoff, merge);
      table == o.table && totalConsolidated == o.total
  {
    table := rows;
    totalConsolidated := 0;
    ghost var merged: nat := 0;
    for i := 0 to |keys|
      invariant Outcome(table, totalConsolidated, merged) == ProcessKeys(Outcome(rows, 0, 0), keys[..i], cutoff, merge)
    {
      assert keys[..i + 1][..i] == keys[..i];
      table, totalConsolidated, merged := ConsolidateKey(table, totalConsolidated, merged, keys[i], cutoff, merge);
    }
    assert keys[..|keys|] == keys;
  }

  /** `consolidateAssetHistory`: daily candles for every asset's price samples before the cutoff. */
  method ConsolidateAssetHistory(assetIds: seq<AssetId>, priceHistory: seq<PriceRow>, cutoff: Timestamp)
    returns (table: seq<PriceRow>, totalConsolidated: nat)
    ensures var o := Consolidate(priceHistory, assetIds, cutoff, CandleOf);
      table == o.table && totalConsolidated == o.total
  {
    table, totalConsolidated := ConsolidateRows(assetIds, priceHistory, cutoff, CandleOf);
  }

  /** `consolidateExchangeRateHistory`: the last rate of each day for every pair's samples before the cutoff. */
  method ConsolidateExchangeRateHistory(pairIds: seq<PairId>, rateHistory: seq<RateRow>, cutoff: Timestamp)
    returns (table: seq<RateRow>, totalConsolidated: nat)
    ensures var o := Consolidate(rateHistory, pairIds, cutoff, RateOf);
      table == o.table && totalConsolidated == o.total
  {
    table, totalConsolidated := ConsolidateRows(pairIds, rateHistory, cutoff, RateOf);
  }
}
