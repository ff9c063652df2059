/** SQLFetchScroll on a statement handle, over a result set that can only be stepped and positioned. */
module CursorStatement {
  import opened Common
  import opened CursorModel

  /** The result set of the client library: `rows` rows, standing on one of them, before or after them. */
  class ResultSet {
    const rows: nat
    var row: nat

    constructor (rows: nat)
      ensures this.rows == rows && row == 0
    {
      this.rows, row := rows, 0;
    }

    method MoveToNext() returns (ok: bool)
      requires row <= rows + 1
      modifies this
      ensures row == (if old(row) <= rows then old(row) + 1 else old(row)) && ok == (row <= rows)
    {
      if row <= rows {
        row := row + 1;
      }
      return row <= rows;
    }

    method MoveTo(target: int)
      requires target >= 0
      modifies this
      ensures row == if target <= rows then target else rows + 1
    {
      row := if target <= rows then target else rows + 1;
    }
  }

  /** How many rows to read; the rowset size is remembered on the way. */
  method RowsToFetch(position: int, size: nat, rows: nat) returns (count: nat)
    requires size > 0
    ensures 1 <= position <= rows ==> count == RowsFrom(position, size, rows)
    ensures position > rows ==> count == 1
    ensures position <= 0 ==> count == if size <= rows + 1 then size else 1
  {
    var from := if position > 0 then position else 0;
    count := size;
    if from + size - 1 > rows {
      count := if from > 0 && rows >= from then rows - from + 1 else 1;
    }
  }

  class Statement {
    const rs: ResultSet
    const forwardOnly: bool
    var position: int
    var next: int
    var lastRowFetched: nat

    constructor (rs: ResultSet, forwardOnly: bool)
      requires rs.row == 0
      ensures this.rs == rs && this.forwardOnly == forwardOnly && Snapshot() == FRESH && Valid()
    {
      this.rs, this.forwardOnly := rs, forwardOnly;
      position, next, lastRowFetched := 0, -1, 0;
    }

    ghost function Snapshot(): Cursor
      reads this, rs
    {
      Cursor(position, next, lastRowFetched, rs.row)
    }

    ghost predicate Valid()
      reads this, rs
    {
      Consistent(Snapshot(), forwardOnly, rs.rows) && rs.row <= rs.rows + 1
    }

    /** Reading the rowset that begins behind the current row. A static cursor reads the first row last,
        so that the result set rests on it. */
    method Fetch(slots: array<int>) returns (rc: Rc)
      requires slots.Length > 0 && 1 <= position <= rs.rows && rs.row == position - 1
      modifies this`lastRowFetched, this`next, rs, slots
      ensures rc == SQL_SUCCESS
      ensures var k := RowsFrom(position, slots.Length, rs.rows);
              && lastRowFetched == k
              && next == (if !forwardOnly && k > 1 then position + k - 1 else old(next))
              && rs.row == (if forwardOnly then position + k - 1 else position)
              && (forall i :: 0 <= i < k ==> slots[i] == position + i)
              && (forall i :: k <= i < slots.Length ==> slots[i] == 0)
    {
      lastRowFetched := 0;
      var rows2Fetch := RowsToFetch(position, slots.Length, rs.rows);
      forall i | 0 <= i < slots.Length { slots[i] := 0; }
      var saveCursor: int := -1;
      if rows2Fetch > 1 && !forwardOnly {
        saveCursor := rs.row;
        var _ := rs.MoveToNext();
      }
      for j := 0 to rows2Fetch
        invariant lastRowFetched == j
        invariant saveCursor == if rows2Fetch > 1 && !forwardOnly then position - 1 else -1
        invariant saveCursor == -1 ==> rs.row == position - 1 + j && next == old(next)
        invariant saveCursor != -1 && j < rows2Fetch ==> rs.row == position + j && next == old(next)
        invariant saveCursor != -1 && j == rows2Fetch ==> rs.row == position && next == position + rows2Fetch - 1
        invariant saveCursor == -1 ==> forall i :: 0 <= i < j ==> slots[i] == position + i
        invariant saveCursor == -1 ==> forall i :: j <= i < slots.Length ==> slots[i] == 0
        invariant saveCursor != -1 ==> forall i :: 1 <= i <= j && i < rows2Fetch ==> slots[i] == position + i
        invariant saveCursor != -1 && j == rows2Fetch ==> slots[0] == position
        invariant saveCursor != -1 ==> forall i :: rows2Fetch <= i < slots.Length ==> slots[i] == 0
      {
        var rowNum := j;
        if saveCursor != -1 {
          rowNum := j + 1;
          if rowNum == rows2Fetch {
            rowNum := 0;
            next := rs.row;
            rs.MoveTo(saveCursor);
          }
        }
        var more := rs.MoveToNext();
        if !more {
          if rowNum > 0 {
            continue;
          }
          return SQL_NO_DATA;
        }
        slots[rowNum] := rs.row;
        lastRowFetched := lastRowFetched + 1;
      }
      return SQL_SUCCESS;
    }

    /** The switch over the orientation. */
    method FindTarget(orientation: Fetch, size: nat) returns (target: int)
      ensures target == Target(Snapshot(), orientation, size, rs.rows)
    {
      match orientation {
        case Next => target := if position <= 0 then 1 else position + lastRowFetched;
        case Prior => target := if position <= 0 then 0 else position - Max(1, size);
        case Relative(offset) =>
          target := position + offset;
          if target <= 0 && position > 1 && -offset < size {
            target := 1;
          }
        case Absolute(offset) =>
          if offset < 0 {
            target := if rs.rows + offset <= 0 && -offset <= size then 1 else rs.rows + offset + 1;
          } else {
            target := offset;
          }
        case First => target := 1;
        case Last => target := rs.rows - Max(0, size - 1);
      }
    }

    /** Bringing the result set to the row before the target, unless it is there already. */
    method Seek(target: int, isNext: bool)
      requires 1 <= target <= rs.rows && rs.row <= rs.rows + 1
      requires isNext && !(lastRowFetched > 1 && !forwardOnly) ==> rs.row == target - 1
      requires isNext && lastRowFetched > 1 && !forwardOnly ==> next == -1 || next == target - 1
      requires !isNext ==> next == -1
      modifies rs
      ensures rs.row == target - 1
    {
      if !isNext || (lastRowFetched > 1 && !forwardOnly) {
        rs.MoveTo(if next != -1 then next else target - 1);
      }
    }

    method FetchScroll(orientation: Fetch, slots: array<int>) returns (rc: Rc)
      requires Valid() && slots.Length > 0
      modifies this, rs, slots
      ensures Valid()
      ensures rc == HY106 <==> forwardOnly && orientation != Next
      ensures rc == HY106 ==> Snapshot() == old(Snapshot()) && slots[..] == old(slots[..])
      ensures rc != HY106 ==>
                && Snapshot() == After(old(Snapshot()), orientation, slots.Length, forwardOnly, rs.rows)
                && (rc == SQL_SUCCESS <==> Delivers(old(Snapshot()), orientation, slots.Length, rs.rows))
      ensures rc == SQL_SUCCESS ==>
                && slots[..lastRowFetched] == Rowset(old(Snapshot()), orientation, slots.Length, rs.rows)
                && (forall i :: 0 <= i < lastRowFetched ==> slots[i] == position + i)
                && (forall i :: lastRowFetched <= i < slots.Length ==> slots[i] == 0)
      ensures rc == SQL_NO_DATA ==> slots[..] == old(slots[..])
    {
      hide Target, Consistent;
      AfterConsistent(Snapshot(), orientation, slots.Length, forwardOnly, rs.rows);
      Stands(Snapshot(), forwardOnly, rs.rows);
      if forwardOnly && orientation != Next {
        return HY106;
      }
      var target := FindTarget(orientation, slots.Length);
      TargetOfNext(Snapshot(), slots.Length, rs.rows);
      if orientation != Next {
        next := -1;
      }
      if target <= 0 {
        position, next := 0, -1;
        rs.MoveTo(0);
        return SQL_NO_DATA;
      }
      position := Min(target, rs.rows + 1);
      if target > rs.rows {
        return SQL_NO_DATA;
      }
      Seek(target, orientation == Next);
      rc := Fetch(slots);
    }
  }

  /** Where the result set is between two fetches, as far as the next one relies on it. */
  lemma Stands(c: Cursor, forwardOnly: bool, n: nat)
    requires Consistent(c, forwardOnly, n)
    ensures 0 <= c.position <= n + 1 && (c.position == 0 ==> c.row == 0 && c.next == -1)
    ensures 1 <= c.position <= n ==>
              && 1 <= c.last && c.position + c.last - 1 <= n
              && c.row == (if forwardOnly then c.position + c.last - 1 else c.position)
              && (!forwardOnly && c.last > 1 ==> c.next == c.position + c.last - 1)
  {
  }

  lemma TargetOfNext(c: Cursor, size: nat, n: nat)
    ensures Target(c, Next, size, n) == if c.position <= 0 then 1 else c.position + c.last
  {
  }
}
