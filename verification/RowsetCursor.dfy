/** Forward reading of a nanodbc result with a rowset of several rows. */
module RowsetCursor {
  import opened Basics

  /** `n` rows in the result, `size` rows to a rowset.  Driver: `start` is the number of the first row of
      the current rowset, 0 before the first fetch and after the end, and `ended` tells these apart.
      nanodbc: `rows` is `row_count_`, `pos` is `rowset_position_`, `atEnd` is `at_end_`. */
  datatype Cursor = Cursor(n: nat, size: nat, start: nat, ended: bool, rows: nat, pos: nat, atEnd: bool, fetches: nat)

  function Fresh(n: nat, size: nat): Cursor {
    Cursor(n, size, 0, false, 0, 0, false, 0)
  }

  function Min(a: nat, b: nat): nat {
    if a < b then a else b
  }

  /** SQLFetchScroll with SQL_FETCH_NEXT.  At the end it reports SQL_NO_DATA and stores 0 rows. */
  function Fetched(c: Cursor): (Cursor, bool) {
    var next := if c.ended then c.n + 1 else if c.start == 0 then 1 else c.start + c.size;
    if next <= c.n then
      (c.(start := next, rows := Min(c.size, c.n - next + 1), fetches := c.fetches + 1), true)
    else
      (c.(start := 0, ended := true, rows := 0, atEnd := true, fetches := c.fetches + 1), false)
  }

  function Advance(c: Cursor): (Cursor, bool) {
    if c.rows != 0 && c.pos + 1 < c.size then (c.(pos := c.pos + 1), c.pos + 1 < c.rows)
    else Fetched(c.(pos := 0))
  }

  /** `position()`: 0 where the driver has no row number. */
  function Position(c: Cursor): nat {
    if c.start == 0 then 0 else c.start + c.pos
  }

  /** The cursor after `k` calls of `next`, and what the last of them returned. */
  function After(n: nat, size: nat, k: nat): Cursor {
    if k == 0 then Fresh(n, size) else Advance(After(n, size, k - 1)).0
  }

  function Returned(n: nat, size: nat, k: nat): bool
    requires 1 <= k
  {
    Advance(After(n, size, k - 1)).1
  }

  // ---------- all the results ----------

  /** On row `k` of the result. */
  predicate OnRow(c: Cursor, n: nat, size: nat, k: nat) {
    && c.n == n && c.size == size && !c.ended && 1 <= c.fetches
    && c.start == (c.fetches - 1) * size + 1 && c.start <= n
    && c.rows == Min(size, n - c.start + 1)
    && c.pos < c.rows && c.start + c.pos == k
  }

  /** Past the last row: nothing that `next` can do finds another one. */
  predicate Past(c: Cursor, n: nat, size: nat) {
    && c.n == n && c.size == size
    && if c.ended then c.rows == 0 else 0 < c.start && c.rows <= c.pos && n < c.start + size
  }

  lemma NextRow(c: Cursor, n: nat, size: nat, k: nat)
    requires 1 <= size && OnRow(c, n, size, k)
    ensures k < n ==> Advance(c).1 && OnRow(Advance(c).0, n, size, k + 1)
    ensures k == n ==> !Advance(c).1 && Past(Advance(c).0, n, size)
  {
    var product := (c.fetches - 1) * size;
    assert c.start == product + 1 && c.fetches * size == product + size;
    if c.pos + 1 < size {
      assert Advance(c) == (c.(pos := c.pos + 1), c.pos + 1 < c.rows);
    } else {
      assert Advance(c) == Fetched(c.(pos := 0)) && k == product + size;
    }
  }

  lemma {:induction false} ReadsInOrder(n: nat, size: nat, k: nat)
    requires 1 <= size && 1 <= k <= n
    ensures Returned(n, size, k)
    ensures OnRow(After(n, size, k), n, size, k)
  {
    if k > 1 {
      ReadsInOrder(n, size, k - 1);
      NextRow(After(n, size, k - 1), n, size, k - 1);
    }
  }

  lemma {:induction false} StaysPast(n: nat, size: nat, k: nat)
    requires 1 <= size && n < k
    ensures !Returned(n, size, k) && Past(After(n, size, k), n, size)
  {
    if k > n + 1 {
      StaysPast(n, size, k - 1);
    } else if n > 0 {
      ReadsInOrder(n, size, n);
      NextRow(After(n, size, n), n, size, n);
    }
  }

  lemma QuotientIs(n: nat, size: nat, q: nat)
    requires 1 <= size && q * size <= n < q * size + size
    ensures n / size == q
  {
    var a := n / size;
    assert a * size <= n < a * size + size;
    if q < a {
      MulMonotone(q + 1, a, size);
    } else if a < q {
      MulMonotone(a + 1, q, size);
    }
  }

  /** For every rowset size, `next` returns true exactly for the calls 1 to `n`, call `k` stands on row `k`
      and `position` says so; every later call returns false. */
  lemma {:induction false} AgreesWithRowCount(n: nat, size: nat, k: nat)
    requires 1 <= size && 1 <= k
    ensures Returned(n, size, k) <==> k <= n
    ensures k <= n ==> Position(After(n, size, k)) == k
  {
    if k <= n { ReadsInOrder(n, size, k); } else { StaysPast(n, size, k); }
  }

  /** Reading by rowsets agrees with reading one row at a time. */
  lemma {:induction false} AgreesWithRowAtATime(n: nat, size: nat, k: nat)
    requires 1 <= size && 1 <= k
    ensures Returned(n, size, k) == Returned(n, 1, k)
    ensures Returned(n, size, k) ==> Position(After(n, size, k)) == Position(After(n, 1, k))
  {
    AgreesWithRowCount(n, size, k);
    AgreesWithRowCount(n, 1, k);
  }

  /** Up to and including the first false, the driver is asked for exactly floor(n / size) + 1 rowsets. */
  lemma {:induction false} FetchCount(n: nat, size: nat)
    requires 1 <= size
    ensures After(n, size, n + 1).fetches == n / size + 1
  {
    if n > 0 {
      ReadsInOrder(n, size, n);
      LastFetch(After(n, size, n), n, size);
    }
  }

  lemma LastFetch(c: Cursor, n: nat, size: nat)
    requires 1 <= size && OnRow(c, n, size, n)
    ensures Advance(c).0.fetches == n / size + 1
  {
    var f := c.fetches;
    var product := (f - 1) * size;
    assert f * size == product + size;
    assert n == product + 1 + c.pos && c.pos + 1 <= size;
    if c.pos + 1 == size {
      QuotientIs(n, size, f);
      assert Advance(c).0.fetches == f + 1;
    } else {
      QuotientIs(n, size, f - 1);
      assert Advance(c).0.fetches == f;
    }
  }

  // ---------- the end of the result ----------

  /** The rows of all rowsets needed for `n` rows, counting the unused places of the last one. */
  function Places(n: nat, size: nat): nat
    requires 1 <= size
  {
    (n + size - 1) / size * size
  }

  /** `m` rowsets hold less than `n` rows exactly when another one is needed. */
  lemma PlacesOf(n: nat, size: nat, m: nat)
    requires 1 <= size
    ensures m * size < n ==> (m + 1) * size <= Places(n, size)
    ensures n <= m * size ==> Places(n, size) <= m * size
    ensures n <= Places(n, size)
  {
    var a := (n + size - 1) / size;
    assert a * size <= n + size - 1 < a * size + size;
    if m * size < n && a <= m { MulMonotone(a, m, size); }
    if m * size < n && m < a { MulMonotone(m + 1, a, size); }
    if n <= m * size && m < a { MulMonotone(m + 1, a, size); }
    if n <= m * size && a <= m { MulMonotone(a, m, size); }
  }

  /** On place `k`, which need not hold a row. */
  predicate OnPlace(c: Cursor, n: nat, size: nat, k: nat) {
    && c.n == n && c.size == size && !c.ended && !c.atEnd && 1 <= c.fetches
    && c.start == (c.fetches - 1) * size + 1 && c.start <= n && 0 < c.rows
    && c.pos < size && c.start + c.pos == k
  }

  predicate AtEnd(c: Cursor, n: nat, size: nat) {
    c.n == n && c.size == size && c.ended && c.atEnd && c.start == 0 && c.rows == 0
  }

  lemma NextPlace(c: Cursor, n: nat, size: nat, k: nat)
    requires 1 <= size && OnPlace(c, n, size, k)
    ensures if k < Places(n, size) then OnPlace(Advance(c).0, n, size, k + 1) else AtEnd(Advance(c).0, n, size)
    ensures k <= Places(n, size)
  {
    hide Places;
    var product := (c.fetches - 1) * size;
    PlacesOf(n, size, c.fetches - 1);
    PlacesOf(n, size, c.fetches);
    assert c.start == product + 1 && c.fetches * size == product + size;
    if c.pos + 1 < size {
      assert Advance(c) == (c.(pos := c.pos + 1), c.pos + 1 < c.rows);
    } else {
      assert Advance(c) == Fetched(c.(pos := 0)) && k == product + size;
    }
  }

  lemma {:induction false} PlaceOrEnd(n: nat, size: nat, k: nat)
    requires 1 <= size && 1 <= k
    ensures if k <= Places(n, size) then OnPlace(After(n, size, k), n, size, k) else AtEnd(After(n, size, k), n, size)
  {
    PlacesOf(n, size, 0);
    if k > 1 {
      PlaceOrEnd(n, size, k - 1);
      if k - 1 <= Places(n, size) { NextPlace(After(n, size, k - 1), n, size, k - 1); }
    }
  }

  /** The end flag is set exactly once `next` has been called more often than the rowsets have places: by the
      fetch that finds no rows, not by the failing calls that step through unused places before it. */
  lemma {:induction false} AtEndIff(n: nat, size: nat, k: nat)
    requires 1 <= size
    ensures After(n, size, k).atEnd <==> Places(n, size) < k
  {
    if 1 <= k { PlaceOrEnd(n, size, k); }
  }

  /** `position` is the call's number until then, also where there is no row any more, and 0 afterwards. */
  lemma {:induction false} PositionAlways(n: nat, size: nat, k: nat)
    requires 1 <= size && 1 <= k
    ensures Position(After(n, size, k)) == if Places(n, size) < k then 0 else k
  {
    PlaceOrEnd(n, size, k);
  }

  // ---------- nanodbc's objects ----------

  /** An executed statement of the driver. */
  class Statement {
    const n: nat
    const size: nat
    var start: nat
    var ended: bool
    ghost var fetches: nat

    constructor (n: nat, size: nat)
      ensures this.n == n && this.size == size && start == 0 && !ended && fetches == 0
    {
      this.n, this.size, start, ended, fetches := n, size, 0, false, 0;
    }

    /** Returns whether there were rows, and how many. */
    method FetchNext() returns (ok: bool, rows: nat)
      modifies this
      ensures fetches == old(fetches) + 1
      ensures var next := if old(ended) then n + 1 else if old(start) == 0 then 1 else old(start) + size;
              && ok == (next <= n)
              && rows == (if ok then Min(size, n - next + 1) else 0)
              && start == (if ok then next else 0) && ended == (!ok || old(ended))
    {
      var next := if ended then n + 1 else if start == 0 then 1 else start + size;
      fetches := fetches + 1;
      if next <= n {
        start := next;
        return true, Min(size, n - next + 1);
      }
      start, ended := 0, true;
      return false, 0;
    }
  }

  class Result {
    const stmt: Statement
    const rowsetSize: nat
    var rowCount: nat
    var rowsetPosition: nat
    var atEnd: bool

    ghost function View(): Cursor
      reads this, stmt
    {
      Cursor(stmt.n, rowsetSize, stmt.start, stmt.ended, rowCount, rowsetPosition, atEnd, stmt.fetches)
    }

    constructor (stmt: Statement)
      requires stmt.start == 0 && !stmt.ended && stmt.fetches == 0
      ensures this.stmt == stmt && rowsetSize == stmt.size && View() == Fresh(stmt.n, stmt.size)
    {
      this.stmt, rowsetSize := stmt, stmt.size;
      rowCount, rowsetPosition, atEnd := 0, 0, false;
    }

    method Next() returns (r: bool)
      requires rowsetSize == stmt.size
      modifies this, stmt
      ensures (View(), r) == Advance(old(View()))
    {
      if rowCount != 0 {
        rowsetPosition := rowsetPosition + 1;
        if rowsetPosition < rowsetSize {
          return rowsetPosition < rowCount;
        }
      }
      rowsetPosition := 0;
      r := Fetch();
    }

    method Fetch() returns (r: bool)
      requires rowsetSize == stmt.size
      modifies this, stmt
      ensures (View(), r) == Fetched(old(View()))
    {
      var ok, rows := stmt.FetchNext();
      rowCount := rows;
      if !ok {
        atEnd := true;
        return false;
      }
      return true;
    }

    method GetPosition() returns (r: nat)
      ensures r == Position(View())
    {
      if stmt.start == 0 {
        return 0;
      }
      return stmt.start + rowsetPosition;
    }
  }
}
