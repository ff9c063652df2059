/** Block and scrollable cursors over a result set of `n` rows. */
module CursorModel {
  import opened Common

  datatype Fetch = Next | Prior | First | Last | Relative(offset: int) | Absolute(offset: int)

  datatype Rc = SQL_SUCCESS | SQL_NO_DATA | HY106

  /** What is remembered between two fetches, and where the result set stands. */
  datatype Cursor = Cursor(
    position: int,    // first row of the rowset; 0 before the first row, n + 1 after the last
    next: int,        // last row of a block fetch, -1 if forgotten
    last: nat,        // LastRowFetched
    row: nat)         // the row the result set is on; 0 before the first, n + 1 after the last

  /** The first row asked for, computed by the driver's switch. */
  function Target(c: Cursor, f: Fetch, size: nat, n: nat): int {
    match f
    case Next => if c.position <= 0 then 1 else c.position + c.last
    case Prior => if c.position <= 0 then 0 else c.position - Max(1, size)
    case Relative(offset) =>
      if c.position + offset <= 0 && c.position > 1 && -offset < size then 1 else c.position + offset
    case Absolute(offset) =>
      if offset >= 0 then offset
      else if n + offset <= 0 && -offset <= size then 1
      else n + offset + 1
    case First => 1
    case Last => n - Max(0, size - 1)
  }

  function RowsFrom(p: int, size: nat, n: nat): int { Min(size, n - p + 1) }

  /** The cursor is before the first row, after the last one, or its rowset lies within the result. */
  ghost predicate Consistent(c: Cursor, forwardOnly: bool, n: nat) {
    || (c.position == 0 && c.row == 0 && c.next == -1)
    || c.position == n + 1
    || (&& 1 <= c.position && 1 <= c.last && c.position + c.last - 1 <= n
        && c.row == (if forwardOnly then c.position + c.last - 1 else c.position)
        && (!forwardOnly && c.last > 1 ==> c.next == c.position + c.last - 1))
  }

  const FRESH := Cursor(0, -1, 0, 0)

  /** Where a fetch leaves the cursor. */
  function After(c: Cursor, f: Fetch, size: nat, forwardOnly: bool, n: nat): Cursor {
    var t := Target(c, f, size, n);
    var next := if f.Next? then c.next else -1;
    if t <= 0 then Cursor(0, -1, c.last, 0)
    else if t > n then Cursor(n + 1, next, c.last, c.row)
    else
      var k := RowsFrom(t, size, n);
      if forwardOnly then Cursor(t, next, k, t + k - 1)
      else Cursor(t, if k > 1 then t + k - 1 else next, k, t)
  }

  predicate Delivers(c: Cursor, f: Fetch, size: nat, n: nat) { 1 <= Target(c, f, size, n) <= n }

  function Rowset(c: Cursor, f: Fetch, size: nat, n: nat): seq<int> {
    if Delivers(c, f, size, n) && size > 0 then
      seq(RowsFrom(Target(c, f, size, n), size, n), i => Target(c, f, size, n) + i)
    else []
  }

  // ---------- Runs ----------

  function Scroll(c: Cursor, calls: seq<(Fetch, nat)>, n: nat): Cursor
    decreases |calls|
  {
    if calls == [] then c else Scroll(After(c, calls[0].0, calls[0].1, false, n), calls[1..], n)
  }

  lemma AfterConsistent(c: Cursor, f: Fetch, size: nat, forwardOnly: bool, n: nat)
    requires Consistent(c, forwardOnly, n) && size > 0
    ensures Consistent(After(c, f, size, forwardOnly, n), forwardOnly, n)
  {
    hide Target;
  }

  /** Any sequence of fetches on a static cursor, with any sizes, leaves it consistent: on its first row,
      and after a block fetch with the last row of the block remembered. */
  lemma {:induction false} ScrollConsistent(c: Cursor, calls: seq<(Fetch, nat)>, n: nat)
    requires Consistent(c, false, n) && forall i :: 0 <= i < |calls| ==> calls[i].1 > 0
    ensures Consistent(Scroll(c, calls, n), false, n)
    decreases |calls|
  {
    hide Consistent, After;
    if calls != [] {
      AfterConsistent(c, calls[0].0, calls[0].1, false, n);
      ScrollConsistent(After(c, calls[0].0, calls[0].1, false, n), calls[1..], n);
    }
  }

  /** The rows delivered by SQL_FETCH_NEXT with the given rowset sizes. */
  function Delivered(c: Cursor, sizes: seq<nat>, forwardOnly: bool, n: nat): seq<int>
    decreases |sizes|
  {
    if sizes == [] then []
    else Rowset(c, Next, sizes[0], n) + Delivered(After(c, Next, sizes[0], forwardOnly, n), sizes[1..], forwardOnly, n)
  }

  function Sum(sizes: seq<nat>): nat {
    if sizes == [] then 0 else sizes[0] + Sum(sizes[1..])
  }

  function Upto(from: int, to: int): seq<int>
    decreases to - from
  {
    if from > to then [] else [from] + Upto(from + 1, to)
  }

  lemma {:induction false} UptoSplit(from: int, mid: int, to: int)
    requires from <= mid + 1 && mid <= to
    ensures Upto(from, to) == Upto(from, mid) + Upto(mid + 1, to)
    decreases mid - from + 1
  {
    if from <= mid {
      UptoSplit(from + 1, mid, to);
    }
  }

  lemma {:induction false} UptoIsRange(from: int, k: nat)
    ensures Upto(from, from + k - 1) == seq(k, i => from + i)
    decreases k
  {
    if k > 0 {
      UptoIsRange(from + 1, k - 1);
      assert seq(k, i => from + i) == [from] + seq(k - 1, i => (from + 1) + i);
    }
  }

  /** The row the next SQL_FETCH_NEXT begins with. */
  function Upcoming(c: Cursor, n: nat): int {
    if c.position <= 0 then 1 else Min(c.position + c.last, n + 1)
  }

  lemma FirstRowset(c: Cursor, size: nat, forwardOnly: bool, n: nat)
    requires Consistent(c, forwardOnly, n) && size > 0
    ensures var t, d := Upcoming(c, n), After(c, Next, size, forwardOnly, n);
            && Consistent(d, forwardOnly, n)
            && Rowset(c, Next, size, n) == Upto(t, Min(n, t + size - 1))
            && Upcoming(d, n) == Min(n, t + size - 1) + 1
  {
    var t := Upcoming(c, n);
    if t <= n {
      UptoIsRange(t, RowsFrom(t, size, n));
    }
  }

  lemma {:induction false} NextDelivers(c: Cursor, sizes: seq<nat>, forwardOnly: bool, n: nat)
    requires Consistent(c, forwardOnly, n) && forall i :: 0 <= i < |sizes| ==> sizes[i] > 0
    ensures Delivered(c, sizes, forwardOnly, n) == Upto(Upcoming(c, n), Min(n, Upcoming(c, n) + Sum(sizes) - 1))
    decreases |sizes|
  {
    hide Consistent, After, Rowset, Upcoming, Upto, Min;
    var t := Upcoming(c, n);
    Starts(c, forwardOnly, n);
    if sizes == [] {
      NothingUpto(t, n);
    } else {
      var d := After(c, Next, sizes[0], forwardOnly, n);
      FirstRowset(c, sizes[0], forwardOnly, n);
      NextDelivers(d, sizes[1..], forwardOnly, n);
      LastRows(t, sizes[0], Sum(sizes[1..]), n);
      UptoSplit(t, Min(n, t + sizes[0] - 1), Min(n, t + Sum(sizes) - 1));
    }
  }

  lemma NothingUpto(t: int, n: nat)
    requires 1 <= t <= n + 1
    ensures Upto(t, Min(n, t - 1)) == []
  {
  }

  /** The last row after one rowset and after all of them. */
  lemma LastRows(t: int, first: nat, rest: nat, n: nat)
    requires 1 <= t <= n + 1 && first > 0
    ensures var mid := Min(n, t + first - 1);
            t <= mid + 1 && mid <= Min(n, t + first + rest - 1) == Min(n, mid + 1 + rest - 1)
  {
  }

  lemma Starts(c: Cursor, forwardOnly: bool, n: nat)
    requires Consistent(c, forwardOnly, n)
    ensures 1 <= Upcoming(c, n) <= n + 1
  {
  }

  /** From a fresh result, SQL_FETCH_NEXT delivers the rows 1, 2, ... once each and in order, whatever
      rowset size is chosen before each call, and nothing after row n. */
  lemma FetchNextDeliversAll(sizes: seq<nat>, forwardOnly: bool, n: nat)
    requires forall i :: 0 <= i < |sizes| ==> sizes[i] > 0
    ensures Delivered(FRESH, sizes, forwardOnly, n) == Upto(1, Min(n, Sum(sizes)))
  {
    NextDelivers(FRESH, sizes, forwardOnly, n);
  }

  /** Once the rows are used up, SQL_FETCH_NEXT reports no data, and goes on doing so. */
  lemma {:induction false} NoDataForever(c: Cursor, sizes: seq<nat>, forwardOnly: bool, n: nat)
    requires Consistent(c, forwardOnly, n) && Upcoming(c, n) > n && forall i :: 0 <= i < |sizes| ==> sizes[i] > 0
    ensures Delivered(c, sizes, forwardOnly, n) == [] && forall size: nat :: !Delivers(c, Next, size, n)
    decreases |sizes|
  {
    if sizes != [] {
      NoDataForever(After(c, Next, sizes[0], forwardOnly, n), sizes[1..], forwardOnly, n);
    }
  }

  // ---------- The ODBC "Cursor Positioning Rules" ----------

  /** The first row of the rowset by the tables of SQLFetchScroll; 0 for before start, n + 1 for after end. */
  function Ruled(c: Cursor, f: Fetch, size: nat, n: nat): int {
    match f
    case Next => if c.position <= 0 then 1 else Min(c.position + c.last, n + 1)
    case Prior =>
      if c.position <= 1 then 0 else Max(1, c.position - size)
    case Relative(offset) =>
      if c.position == 0 && offset <= 0 then 0
      else if c.position <= 1 && c.position + offset < 1 then 0
      else if c.position + offset < 1 then (if -offset <= size then 1 else 0)
      else Min(c.position + offset, n + 1)
    case Absolute(offset) =>
      if offset >= 0 then Min(offset, n + 1)
      else if -offset <= n then n + offset + 1
      else if -offset <= size then 1 else 0
    case First => 1
    case Last => if size <= n then n - size + 1 else 1
  }

  predicate Deviates(c: Cursor, f: Fetch, size: nat, n: nat) {
    match f
    case Prior => 1 < c.position <= size
    case Last => n < size
    case Relative(offset) => 1 < c.position < 1 - offset && -offset == size
    case _ => false
  }

  /** The driver positions the cursor as the tables say, except where they move an overshooting SQL_FETCH_PRIOR
      or SQL_FETCH_LAST, or an SQL_FETCH_RELATIVE by exactly one rowset, to row 1: it reports no data there. */
  lemma AgreesWithRules(c: Cursor, f: Fetch, size: nat, forwardOnly: bool, n: nat)
    requires Consistent(c, forwardOnly, n) && n > 0 && size > 0
    ensures After(c, f, size, forwardOnly, n).position == Ruled(c, f, size, n) <==> !Deviates(c, f, size, n)
    ensures Deviates(c, f, size, n) ==> !Delivers(c, f, size, n) && Ruled(c, f, size, n) == 1
  {
  }

  /** On a static cursor, with a rowset of five on row 3 of ten: the previous rowset, and the one five rows earlier.
      With a rowset of five in a result of three rows: the last one. Each time the tables say row 1 and the driver finds
      no data. */
  lemma OvershootsFindNothing()
    ensures var c := Cursor(3, 7, 5, 3);
            && Consistent(c, false, 10) && Consistent(FRESH, false, 3)
            && !Delivers(c, Prior, 5, 10) && After(c, Prior, 5, false, 10).position == 0
            && !Delivers(c, Relative(-5), 5, 10) && After(c, Relative(-5), 5, false, 10).position == 0
            && !Delivers(FRESH, Last, 5, 3) && After(FRESH, Last, 5, false, 3).position == 0
            && Ruled(c, Prior, 5, 10) == Ruled(c, Relative(-5), 5, 10) == Ruled(FRESH, Last, 5, 3) == 1
  {
  }
}
