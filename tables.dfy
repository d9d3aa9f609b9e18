/**
 * In-memory stand-in for an Azure table: partitions of rows kept in ordinal row-key
 * order, an entity tag per row, and the operations the core uses (point get, add,
 * ETag-conditioned update, replace-upsert, unconditional delete, one-page query).
 */
module Tables {
  import opened Wrappers
  import LexOrder

  datatype Row<T> = Row(rowKey: string, value: T, etag: nat)

  /** The values of a partition, in row-key order. */
  function Values<T>(rows: seq<Row<T>>): (vs: seq<T>)
    ensures |vs| == |rows| && forall i :: 0 <= i < |rows| ==> vs[i] == rows[i].value
  {
    seq(|rows|, i requires 0 <= i < |rows| => rows[i].value)
  }

  /** One page of a partition query and the continuation to the next, if rows remain. */
  datatype Page<T> = Page(items: seq<T>, continuation: Option<nat>)

  /** Strictly increasing row keys: the service's order, one row per key. */
  predicate Sorted<T>(rows: seq<Row<T>>) {
    forall i, j :: 0 <= i < j < |rows| ==> LexOrder.Less(rows[i].rowKey, rows[j].rowKey)
  }

  function Find<T>(rows: seq<Row<T>>, rk: string): (r: Option<Row<T>>)
    ensures r.Some? ==> r.value in rows && r.value.rowKey == rk
    ensures r.None? ==> forall i :: 0 <= i < |rows| ==> rows[i].rowKey != rk
  {
    if |rows| == 0 then None
    else if rows[0].rowKey == rk then Some(rows[0])
    else Find(rows[1..], rk)
  }

  /** In a sorted partition a key names at most one row, and `Find` returns it. */
  lemma {:induction false} FindSorted<T>(rows: seq<Row<T>>, row: Row<T>)
    requires Sorted(rows) && row in rows
    ensures Find(rows, row.rowKey) == Some(row)
  {
    if rows[0] != row {
      assert rows[0].rowKey != row.rowKey by {
        var i :| 0 <= i < |rows| && rows[i] == row;
        LexOrder.Irreflexive(row.rowKey);
      }
      assert row in rows[1..];
      FindSorted(rows[1..], row);
    }
  }

  /** Insert a row whose key is absent, keeping the order. */
  function Insert<T>(rows: seq<Row<T>>, row: Row<T>): (r: seq<Row<T>>)
    requires Sorted(rows) && Find(rows, row.rowKey).None?
    ensures Sorted(r)
    ensures |r| == |rows| + 1 && row in r
    ensures forall i :: 0 <= i < |r| ==> r[i] == row || r[i] in rows
    ensures forall i :: 0 <= i < |rows| ==> rows[i] in r
  {
    if |rows| == 0 then [row]
    else if LexOrder.Less(row.rowKey, rows[0].rowKey) then
      assert forall j :: 0 < j < |rows| ==> LexOrder.Less(row.rowKey, rows[j].rowKey) by {
        forall j | 0 < j < |rows| {
          LexOrder.Transitive(row.rowKey, rows[0].rowKey, rows[j].rowKey);
        }
      }
      [row] + rows
    else
      var tail := Insert(rows[1..], row);
      assert LexOrder.Less(rows[0].rowKey, row.rowKey) by {
        LexOrder.Total(rows[0].rowKey, row.rowKey);
      }
      var r := [rows[0]] + tail;
      assert forall i :: 0 < i < |rows| ==> rows[i] in tail by {
        forall i | 0 < i < |rows|
          ensures rows[i] in tail
        {
          assert rows[i] == rows[1..][i - 1];
        }
      }
      assert forall j :: 0 <= j < |tail| ==> LexOrder.Less(rows[0].rowKey, tail[j].rowKey);
      r
  }

  /** Remove the row with key `rk`, if any. */
  function Remove<T>(rows: seq<Row<T>>, rk: string): (r: seq<Row<T>>)
    ensures forall i :: 0 <= i < |r| ==> r[i] in rows && r[i].rowKey != rk
  {
    if |rows| == 0 then []
    else
      var tail := Remove(rows[1..], rk);
      if rows[0].rowKey == rk then tail else [rows[0]] + tail
  }

  /** Removing keeps the order. */
  lemma {:induction false} RemoveSorted<T>(rows: seq<Row<T>>, rk: string)
    requires Sorted(rows)
    ensures Sorted(Remove(rows, rk)) && Find(Remove(rows, rk), rk).None?
  {
    if |rows| > 0 {
      var tail := Remove(rows[1..], rk);
      RemoveSorted(rows[1..], rk);
      if rows[0].rowKey != rk {
        forall j | 0 <= j < |tail|
          ensures LexOrder.Less(rows[0].rowKey, tail[j].rowKey)
        {
          var k :| 0 <= k < |rows[1..]| && rows[1..][k] == tail[j];
          assert rows[k + 1] == tail[j];
        }
        var r := [rows[0]] + tail;
        assert forall i :: 0 < i < |r| ==> r[i] == tail[i - 1];
      }
    }
  }

  /** Removing keeps every row under another key. */
  lemma {:induction false} RemoveKeeps<T>(rows: seq<Row<T>>, rk: string)
    ensures forall i :: 0 <= i < |rows| && rows[i].rowKey != rk ==> rows[i] in Remove(rows, rk)
  {
    if |rows| > 0 {
      RemoveKeeps(rows[1..], rk);
      assert forall i :: 0 < i < |rows| ==> rows[i] == rows[1..][i - 1];
    }
  }

  /** Replace-or-insert the row under `row.rowKey`. */
  function Put<T>(rows: seq<Row<T>>, row: Row<T>): (r: seq<Row<T>>)
    requires Sorted(rows)
    ensures Sorted(r)
  {
    RemoveSorted(rows, row.rowKey);
    Insert(Remove(rows, row.rowKey), row)
  }

  /** After `Put`, the key holds the new row and every other key what it held. */
  lemma FindPut<T>(rows: seq<Row<T>>, row: Row<T>, rk: string)
    requires Sorted(rows)
    ensures Find(Put(rows, row), rk) == if rk == row.rowKey then Some(row) else Find(rows, rk)
  {
    var r := Put(rows, row);
    if rk == row.rowKey {
      FindSorted(r, row);
    } else {
      var removed := Remove(rows, row.rowKey);
      RemoveKeeps(rows, row.rowKey);
      match Find(rows, rk)
      case Some(x) =>
        assert x in removed;
        assert x in r;
        FindSorted(r, x);
      case None =>
    }
  }

  /** After `Remove`, the key is empty and every other key holds what it held. */
  lemma FindRemove<T>(rows: seq<Row<T>>, rk: string, other: string)
    requires Sorted(rows)
    ensures Find(Remove(rows, rk), other) == if other == rk then None else Find(rows, other)
  {
    var r := Remove(rows, rk);
    RemoveSorted(rows, rk);
    RemoveKeeps(rows, rk);
    if other != rk {
      match Find(rows, other)
      case Some(x) =>
        assert x in r;
        FindSorted(r, x);
      case None =>
    }
  }

  /** Every entity tag in a partition is below `bound`. */
  predicate TagsBelow<T>(rows: seq<Row<T>>, bound: nat) {
    forall i :: 0 <= i < |rows| ==> rows[i].etag < bound
  }

  /** The whole state of one table; `clock` is the next fresh entity tag. */
  datatype TableState<T> = TableState(partitions: map<string, seq<Row<T>>>, clock: nat) {

    predicate Valid() {
      forall pk :: pk in partitions ==> Sorted(partitions[pk]) && TagsBelow(partitions[pk], clock)
    }

    /** The rows of a partition in row-key order; a missing partition is empty. */
    function Rows(pk: string): seq<Row<T>> {
      if pk in partitions then partitions[pk] else []
    }

    /** Point read; `None` is the service's 404, which the wrappers turn into null. */
    function Get(pk: string, rk: string): Option<Row<T>> {
      Find(Rows(pk), rk)
    }

    /** `UpsertEntityAsync(…, Replace)`: the row becomes `value` under a fresh entity tag. */
    function Upsert(pk: string, rk: string, value: T): (s: TableState<T>)
      requires Valid()
      ensures s.Valid() && s.clock == clock + 1
    {
      var rows := Put(Rows(pk), Row(rk, value, clock));
      assert TagsBelow(rows, clock + 1) by {
        forall i | 0 <= i < |rows|
          ensures rows[i].etag < clock + 1
        {
          if rows[i] != Row(rk, value, clock) {
            assert rows[i] in Rows(pk);
          }
        }
      }
      TableState(partitions[pk := rows], clock + 1)
    }

    /** `DeleteEntityAsync(…, ETag.All)`: unconditional, and a no-op on a missing row. */
    function Delete(pk: string, rk: string): (s: TableState<T>)
      requires Valid()
      ensures s.Valid() && s.clock == clock
    {
      if Get(pk, rk).None? then this
      else
        var rows := Remove(Rows(pk), rk);
        RemoveSorted(Rows(pk), rk);
        assert TagsBelow(rows, clock) by {
          forall i | 0 <= i < |rows|
            ensures rows[i].etag < clock
          {
            assert rows[i] in Rows(pk);
          }
        }
        TableState(partitions[pk := rows], clock)
    }

    /** `AddEntityAsync`: fails with 409 when the key is taken. */
    function Add(pk: string, rk: string, value: T): (r: Result<TableState<T>, int>)
      requires Valid()
    {
      if Get(pk, rk).Some? then Failure(409) else Success(Upsert(pk, rk, value))
    }

    /** `UpdateEntityAsync(…, ifMatch, Replace)`: 404 when missing, 412 when the tag differs. */
    function Update(pk: string, rk: string, value: T, ifMatch: nat): (r: Result<TableState<T>, int>)
      requires Valid()
    {
      match Get(pk, rk)
      case None => Failure(404)
      case Some(row) => if row.etag != ifMatch then Failure(412) else Success(Upsert(pk, rk, value))
    }

    /**
     * First page of a partition query resuming at `continuation` (an offset): up to
     * `pageSize` rows, and a continuation exactly when rows remain.
     */
    function Query(pk: string, pageSize: nat, continuation: Option<nat>): (p: Page<T>)
      ensures |p.items| <= pageSize
    {
      var rows := Rows(pk);
      var start := if continuation.None? then 0
        else if continuation.value < |rows| then continuation.value else |rows|;
      var end := if start + pageSize < |rows| then start + pageSize else |rows|;
      Page(Values(rows)[start..end], if end < |rows| then Some(end) else None)
    }
  }

  /** Reading after an upsert sees the upserted row at its key and the old rows elsewhere. */
  lemma GetUpsert<T>(s: TableState<T>, pk: string, rk: string, value: T, pk2: string, rk2: string)
    requires s.Valid()
    ensures s.Upsert(pk, rk, value).Get(pk2, rk2) ==
      if pk2 == pk && rk2 == rk then Some(Row(rk, value, s.clock)) else s.Get(pk2, rk2)
  {
    if pk2 == pk {
      FindPut(s.Rows(pk), Row(rk, value, s.clock), rk2);
    }
  }

  /** Reading after a delete sees nothing at its key and the old rows elsewhere. */
  lemma GetDelete<T>(s: TableState<T>, pk: string, rk: string, pk2: string, rk2: string)
    requires s.Valid()
    ensures s.Delete(pk, rk).Get(pk2, rk2) ==
      if pk2 == pk && rk2 == rk then None else s.Get(pk2, rk2)
  {
    if pk2 == pk && s.Get(pk, rk).Some? {
      FindRemove(s.Rows(pk), rk, rk2);
    }
  }

  /** A row read from a valid table carries a tag older than any write that follows. */
  lemma GetTagIsOld<T>(s: TableState<T>, pk: string, rk: string)
    requires s.Valid() && s.Get(pk, rk).Some?
    ensures s.Get(pk, rk).value.etag < s.clock
  {
    var row := s.Get(pk, rk).value;
    var rows := s.Rows(pk);
    var i :| 0 <= i < |rows| && rows[i] == row;
  }

  /** The offset a continuation resumes at: the start of the partition when there is none. */
  function StartOffset(continuation: Option<nat>): nat {
    if continuation.None? then 0 else continuation.value
  }

  /** Where a page of at most `pageSize` rows from offset `off` ends in a partition of `count` rows. */
  function PageEnd(count: nat, off: nat, pageSize: nat): nat {
    if off + pageSize < count then off + pageSize else count
  }

  /**
   * Paging from the start (no continuation) and following every continuation visits the whole
   * partition in order.
   */
  lemma {:induction false} QueryCovers<T>(s: TableState<T>, pk: string, pageSize: nat, continuation: Option<nat>)
    requires pageSize > 0 && StartOffset(continuation) <= |s.Rows(pk)|
    ensures var p := s.Query(pk, pageSize, continuation);
      |p.items| > 0 || p.continuation.None?
    ensures var p, offset := s.Query(pk, pageSize, continuation), StartOffset(continuation);
      p.continuation.Some? ==> p.continuation.value == offset + |p.items| <= |s.Rows(pk)|
    ensures var p, offset := s.Query(pk, pageSize, continuation), StartOffset(continuation);
      forall i :: 0 <= i < |p.items| ==> p.items[i] == s.Rows(pk)[offset + i].value
    ensures var p, offset := s.Query(pk, pageSize, continuation), StartOffset(continuation);
      p.continuation.None? ==> offset + |p.items| == |s.Rows(pk)|
  {
  }

  /**
   * Resuming at `continuation` (from the start when there is none), a query returns the next
   * `pageSize` values of the partition (or the rest of it) and continues right after them, or
   * not at all at the end.
   */
  lemma QueryPage<T>(s: TableState<T>, pk: string, pageSize: nat, continuation: Option<nat>)
    requires pageSize > 0 && StartOffset(continuation) <= |s.Rows(pk)|
    ensures var vs, off := Values(s.Rows(pk)), StartOffset(continuation);
      var n := if off + pageSize < |vs| then pageSize else |vs| - off;
      s.Query(pk, pageSize, continuation) == Page(vs[off..off + n], if off + n == |vs| then None else Some(off + n))
  {
  }

  /** The continuation part of `QueryPage`: the offset after the page, none at the end. */
  lemma QueryContinuation<T>(s: TableState<T>, pk: string, pageSize: nat, continuation: Option<nat>)
    requires pageSize > 0 && StartOffset(continuation) <= |s.Rows(pk)|
    ensures var vs, off := Values(s.Rows(pk)), StartOffset(continuation);
      var n := if off + pageSize < |vs| then pageSize else |vs| - off;
      s.Query(pk, pageSize, continuation).continuation == if off + n == |vs| then None else Some(off + n)
  {
    QueryPage(s, pk, pageSize, continuation);
  }

  /** The mutable table object the stores hold. */
  class Table<T> {
    var state: TableState<T>

    predicate Valid()
      reads this
    {
      state.Valid()
    }

    constructor ()
      ensures Valid() && state == TableState(map[], 0)
    {
      state := TableState(map[], 0);
    }

    method Get(pk: string, rk: string) returns (row: Option<Row<T>>)
      ensures row == state.Get(pk, rk)
    {
      row := state.Get(pk, rk);
    }

    method Add(pk: string, rk: string, value: T) returns (failure: Option<int>)
      requires Valid()
      modifies this
      ensures Valid()
      ensures match old(state).Add(pk, rk, value)
        case Success(s) => failure.None? && state == s
        case Failure(code) => failure == Some(code) && state == old(state)
    {
      match state.Add(pk, rk, value)
      case Success(s) =>
        state := s;
        failure := None;
      case Failure(code) =>
        failure := Some(code);
    }

    method Update(pk: string, rk: string, value: T, ifMatch: nat) returns (failure: Option<int>)
      requires Valid()
      modifies this
      ensures Valid()
      ensures match old(state).Update(pk, rk, value, ifMatch)
        case Success(s) => failure.None? && state == s
        case Failure(code) => failure == Some(code) && state == old(state)
    {
      match state.Update(pk, rk, value, ifMatch)
      case Success(s) =>
        state := s;
        failure := None;
      case Failure(code) =>
        failure := Some(code);
    }

    method Upsert(pk: string, rk: string, value: T)
      requires Valid()
      modifies this
      ensures Valid() && state == old(state).Upsert(pk, rk, value)
    {
      state := state.Upsert(pk, rk, value);
    }

    method Delete(pk: string, rk: string)
      requires Valid()
      modifies this
      ensures Valid() && state == old(state).Delete(pk, rk)
    {
      state := state.Delete(pk, rk);
    }

    method Query(pk: string, pageSize: nat, continuation: Option<nat>) returns (page: Page<T>)
      ensures page == state.Query(pk, pageSize, continuation)
    {
      page := state.Query(pk, pageSize, continuation);
    }
  }
}
