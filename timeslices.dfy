/** The `TimeSlice` table of limiter.py: one row per run, holding the run's
    timestamp (unique) and the client's cumulative transfer counter. The table
    is kept as a sequence sorted strictly by timestamp; the two queries the
    program issues are stated over the rows without relying on that order, as
    SQL does. */
module TimeSlices {
  import opened Wrappers

  /** One row: when it was taken and the cumulative usage in bytes. */
  datatype Sample = Sample(timestamp: int, usage: int)

  predicate StrictlySorted(rows: seq<Sample>)
  {
    forall i, j :: 0 <= i < j < |rows| ==> rows[i].timestamp < rows[j].timestamp
  }

  predicate HasTimestamp(rows: seq<Sample>, t: int)
  {
    exists i :: 0 <= i < |rows| && rows[i].timestamp == t
  }

  /** `select … where timestamp < t order by timestamp desc`, first row: the row
      with the greatest timestamp strictly before `t`, if any. */
  function LatestBefore(rows: seq<Sample>, t: int): (r: Option<Sample>)
    ensures r.None? <==> forall i :: 0 <= i < |rows| ==> rows[i].timestamp >= t
    ensures r.Some? ==>
      r.value in rows && r.value.timestamp < t &&
      forall i :: 0 <= i < |rows| && rows[i].timestamp < t ==> rows[i].timestamp <= r.value.timestamp
  {
    if rows == [] then None
    else
      var rest := LatestBefore(rows[1..], t);
      assert forall i :: 1 <= i < |rows| ==> rows[i] == rows[1..][i - 1];
      if rows[0].timestamp < t && (rest.None? || rest.value.timestamp < rows[0].timestamp) then
        Some(rows[0])
      else
        rest
  }

  /** `select … order by timestamp asc`, first row: the row with the smallest
      timestamp, if the table has any row. */
  function Earliest(rows: seq<Sample>): (r: Option<Sample>)
    ensures r.None? <==> rows == []
    ensures r.Some? ==>
      r.value in rows && forall i :: 0 <= i < |rows| ==> r.value.timestamp <= rows[i].timestamp
  {
    if rows == [] then None
    else
      var rest := Earliest(rows[1..]);
      assert forall i :: 1 <= i < |rows| ==> rows[i] == rows[1..][i - 1];
      if rest.None? || rows[0].timestamp <= rest.value.timestamp then Some(rows[0]) else rest
  }

  /** The rows after a new row is placed at its position in timestamp order. */
  function InsertSorted(rows: seq<Sample>, s: Sample): (r: seq<Sample>)
    requires StrictlySorted(rows)
    requires !HasTimestamp(rows, s.timestamp)
    ensures StrictlySorted(r)
    ensures multiset(r) == multiset(rows) + multiset{s}
    ensures |r| == |rows| + 1
  {
    if rows == [] || s.timestamp < rows[0].timestamp then
      InsertFirst(rows, s);
      [s] + rows
    else
      SortedTail(rows);
      var rest := InsertSorted(rows[1..], s);
      InsertAfterHead(rows, s, rest);
      [rows[0]] + rest
  }

  /** A row earlier than every row of a sorted table can go in front. */
  lemma InsertFirst(rows: seq<Sample>, s: Sample)
    requires StrictlySorted(rows)
    requires rows == [] || s.timestamp < rows[0].timestamp
    ensures StrictlySorted([s] + rows)
  {
    forall x | x in rows ensures s.timestamp < x.timestamp {
      var i :| 0 <= i < |rows| && rows[i] == x;
      assert rows[0].timestamp <= x.timestamp;
    }
    SortedCons(s, rows);
  }

  /** A row later than the first row of a table goes after it: the first row
      followed by the insertion into the rest is sorted and holds the new row. */
  lemma InsertAfterHead(rows: seq<Sample>, s: Sample, rest: seq<Sample>)
    requires rows != [] && StrictlySorted(rows)
    requires !HasTimestamp(rows, s.timestamp) && rows[0].timestamp <= s.timestamp
    requires StrictlySorted(rest)
    requires multiset(rest) == multiset(rows[1..]) + multiset{s}
    ensures StrictlySorted([rows[0]] + rest)
    ensures multiset([rows[0]] + rest) == multiset(rows) + multiset{s}
  {
    var head, tail := rows[0], rows[1..];
    SortedTail(rows);
    assert head.timestamp < s.timestamp by {
      assert rows[0].timestamp != s.timestamp;
    }
    forall x | x in rest ensures head.timestamp < x.timestamp {
      assert x in multiset(rest);
      if x != s {
        assert x in multiset(tail);
      }
    }
    SortedCons(head, rest);
    assert rows == [head] + tail;
  }

  /** The rows after the first of a sorted table are sorted, later than the
      first, and share no timestamp with a row the table lacks. */
  lemma SortedTail(rows: seq<Sample>)
    requires rows != [] && StrictlySorted(rows)
    ensures StrictlySorted(rows[1..])
    ensures forall x :: x in rows[1..] ==> rows[0].timestamp < x.timestamp
    ensures forall t :: !HasTimestamp(rows, t) ==> !HasTimestamp(rows[1..], t)
  {
    var tail := rows[1..];
    assert forall i :: 0 <= i < |tail| ==> tail[i] == rows[i + 1];
  }

  lemma SortedCons(head: Sample, rest: seq<Sample>)
    requires StrictlySorted(rest)
    requires forall x :: x in rest ==> head.timestamp < x.timestamp
    ensures StrictlySorted([head] + rest)
  {
    var r := [head] + rest;
    forall i, j | 0 <= i < j < |r| ensures r[i].timestamp < r[j].timestamp {
      assert r[j] == rest[j - 1];
      if i > 0 {
        assert r[i] == rest[i - 1];
      }
    }
  }

  /** A table that already holds rows strictly before `now` gets the row
      `(now, usage)`; any later window reference then finds that row as its
      baseline: the sample just recorded is what the next run compares against. */
  lemma {:induction false} RecordedSampleIsNextBaseline(rows: seq<Sample>, now: int, usage: int, t: int)
    requires StrictlySorted(rows)
    requires forall i :: 0 <= i < |rows| ==> rows[i].timestamp < now
    requires now < t
    ensures !HasTimestamp(rows, now)
    ensures LatestBefore(InsertSorted(rows, Sample(now, usage)), t) == Some(Sample(now, usage))
  {
    var s := Sample(now, usage);
    var r := InsertSorted(rows, s);
    assert s in multiset(r);
    var k :| 0 <= k < |r| && r[k] == s;
    var b := LatestBefore(r, t);
    assert b.Some? && now <= b.value.timestamp;
    assert forall x :: x in multiset(rows) ==> x.timestamp < now by {
      forall x | x in multiset(rows) ensures x.timestamp < now {
        assert x in rows;
      }
    }
    assert b.value in multiset(rows) + multiset{s};
  }

  /** The table itself: rows kept strictly sorted by timestamp. */
  class TimeSliceTable {
    var rows: seq<Sample>

    ghost predicate Valid()
      reads this
    {
      StrictlySorted(rows)
    }

    constructor ()
      ensures Valid() && rows == []
    {
      rows := [];
    }

    /** `TimeSlice(timestamp=…, data_usage=…).save()`: the unique index on the
        timestamp refuses a second row with the same timestamp, leaving the
        table as it was; otherwise the row is added. */
    method Save(s: Sample) returns (saved: bool)
      requires Valid()
      modifies this
      ensures Valid()
      ensures saved <==> !HasTimestamp(old(rows), s.timestamp)
      ensures saved ==> multiset(rows) == multiset(old(rows)) + multiset{s}
      ensures !saved ==> rows == old(rows)
    {
      if HasTimestamp(rows, s.timestamp) {
        saved := false;
      } else {
        rows := InsertSorted(rows, s);
        saved := true;
      }
    }
  }
}
