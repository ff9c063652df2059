/** Positioned UPDATE and DELETE: the WHERE clause that finds the current row, the cached list of its key columns,
    and the loop that binds the values of those columns to its markers. */
module PositionedWhere {
  import opened Common

  /** What reading a column of the current row for the clause gives. */
  datatype Cell = Null | Text(value: string) | Unreadable

  type Row = seq<Cell>

  datatype Field = Field(name: string, primary: bool, unique: bool)

  // Values of IndexType: a flag of a key, all columns, not decided yet, or no way to find the row.
  const PRI_KEY_FLAG := 2
  const UNIQUE_KEY_FLAG := 4
  const ALL_COLUMNS := 1
  const UNDECIDED := 0
  const IMPOSSIBLE := -1

  /** What the server says about the table: how many columns it has (negative if that failed), and how many of them
      belong to the primary and to unique keys. */
  datatype Table = Table(columns: int, primary: nat, unique: nat)

  /** The flag 0 chooses every column. */
  predicate Chosen(f: Field, flag: int) {
    flag == 0 || (flag == PRI_KEY_FLAG && f.primary) || (flag == UNIQUE_KEY_FLAG && f.unique)
  }

  /** The chosen ones of the first `n` columns. */
  function ChosenBelow(fields: seq<Field>, flag: int, n: nat): seq<nat>
    requires n <= |fields|
  {
    if n == 0 then []
    else ChosenBelow(fields, flag, n - 1) + if Chosen(fields[n - 1], flag) then [n - 1] else []
  }

  function Columns(fields: seq<Field>, flag: int): seq<nat> { ChosenBelow(fields, flag, |fields|) }

  /** The first key all of whose columns are in the result; otherwise all columns, if the result has all those of
      the table. */
  function BestFlag(fields: seq<Field>, table: Table): Option<int> {
    var primary, unique := |Columns(fields, PRI_KEY_FLAG)|, |Columns(fields, UNIQUE_KEY_FLAG)|;
    if table.columns < 0 then None
    else if primary != 0 && primary == table.primary then Some(PRI_KEY_FLAG)
    else if unique != 0 && unique == table.unique then Some(UNIQUE_KEY_FLAG)
    else if table.columns == |fields| then Some(0)
    else None
  }

  /** In increasing order, exactly the chosen columns. */
  lemma {:induction false} ChosenInOrder(fields: seq<Field>, flag: int, n: nat)
    requires n <= |fields|
    ensures forall i :: 0 <= i < |ChosenBelow(fields, flag, n)| ==>
              ChosenBelow(fields, flag, n)[i] < n && Chosen(fields[ChosenBelow(fields, flag, n)[i]], flag)
    ensures forall i, j :: 0 <= i < j < |ChosenBelow(fields, flag, n)| ==>
              ChosenBelow(fields, flag, n)[i] < ChosenBelow(fields, flag, n)[j]
    ensures forall c: nat :: c < n && Chosen(fields[c], flag) ==> c in ChosenBelow(fields, flag, n)
  {
    if n > 0 {
      ChosenInOrder(fields, flag, n - 1);
      var before := ChosenBelow(fields, flag, n - 1);
      if Chosen(fields[n - 1], flag) {
        assert ChosenBelow(fields, flag, n)[|before|] == n - 1;
      }
    }
  }

  lemma {:induction false} ChosenPrefix(fields: seq<Field>, flag: int, m: nat, n: nat)
    requires m <= n <= |fields|
    ensures ChosenBelow(fields, flag, m) <= ChosenBelow(fields, flag, n)
    decreases n - m
  {
    if m < n {
      ChosenPrefix(fields, flag, m, n - 1);
    }
  }

  lemma {:induction false} AllChosen(fields: seq<Field>, n: nat)
    requires n <= |fields|
    ensures |ChosenBelow(fields, 0, n)| == n
    ensures forall i :: 0 <= i < n ==> ChosenBelow(fields, 0, n)[i] == i
  {
    if n > 0 {
      AllChosen(fields, n - 1);
    }
  }

  // ---------- Text ----------

  /** The condition on one column: with a marker, or with the value of the current row. */
  function Condition(f: Field, markers: bool, cell: Cell): string {
    " AND `" + f.name + "`" +
    if markers then "=?"
    else match cell
      case Null => " IS NULL"
      case Text(v) => "= '" + v + "'"
      case Unreadable => ""   // the clause is given up
  }

  function Conditions(fields: seq<Field>, columns: seq<nat>, markers: bool, row: Row): string
    requires |row| == |fields| && InRange(fields, columns)
  {
    if columns == [] then ""
    else
      var k := |columns| - 1;
      Conditions(fields, columns[..k], markers, row) + Condition(fields[columns[k]], markers, row[columns[k]])
  }

  predicate InRange(fields: seq<Field>, columns: seq<nat>) { forall i :: 0 <= i < |columns| ==> columns[i] < |fields| }

  /** A clause, or a failure, or nothing that can be said: a listed number is the number of no column. */
  datatype Result = Built(clause: string) | Failed | Wild

  /** If values are wanted: one that cannot be read ends the scan, and in a column of a key a null does. */
  predicate Stops(cell: Cell, flag: int) { cell.Unreadable? || (flag != 0 && cell.Null?) }

  /** Going over the columns from place `k` on. */
  function Walk(fields: seq<Field>, columns: seq<nat>, flag: int, markers: bool, row: Row, k: nat): Result
    requires |row| == |fields| && k <= |columns| && InRange(fields, columns[..k])
    decreases |columns| - k
  {
    if k == |columns| then
      assert columns[..k] == columns;
      Built(" WHERE 1" + Conditions(fields, columns, markers, row) + " LIMIT 1")
    else if columns[k] >= |fields| then Wild
    else if !markers && Stops(row[columns[k]], flag) then Failed
    else Walk(fields, columns, flag, markers, row, k + 1)
  }

  // ---------- The cache ----------

  /** IndexType, and the columns in UniqueIndex; their count is its first entry. */
  datatype Cache = Cache(indexType: int, list: Option<seq<nat>>)

  const NEW := Cache(UNDECIDED, None)

  predicate Shaped(c: Cache) {
    match c.list
    case None => c.indexType in {UNDECIDED, ALL_COLUMNS, IMPOSSIBLE}
    case Some(list) => list != [] && c.indexType in {PRI_KEY_FLAG, UNIQUE_KEY_FLAG}
  }

  /** By what columns the row is found: those of the cached key, or what the table and the result allow. */
  function FlagFor(fields: seq<Field>, c: Cache, table: Table): Option<int> {
    if c.list.Some? then Some(c.indexType)
    else if c.indexType == ALL_COLUMNS then Some(0)
    else if c.indexType == IMPOSSIBLE then None
    else BestFlag(fields, table)
  }

  /** The columns that are gone over: the cached ones, whatever they are. */
  function Walked(fields: seq<Field>, c: Cache, flag: int): seq<nat> {
    if c.list.Some? then c.list.value else Columns(fields, flag)
  }

  function Clause(fields: seq<Field>, c: Cache, table: Table, markers: bool, row: Row): Result
    requires |row| == |fields|
  {
    match FlagFor(fields, c, table)
    case None => Failed
    case Some(flag) => Walk(fields, Walked(fields, c, flag), flag, markers, row, 0)
  }

  /** The place of the first column of a key whose value is null or cannot be read, or the number of columns. */
  function FirstGap(columns: seq<nat>, row: Row, k: nat): (n: nat)
    requires k <= |columns| && forall i :: 0 <= i < |columns| ==> columns[i] < |row|
    ensures k <= n <= |columns| && (n < |columns| ==> !row[columns[n]].Text?)
    ensures forall i :: k <= i < n ==> row[columns[i]].Text?
    decreases |columns| - k
  {
    if k == |columns| || !row[columns[k]].Text? then k else FirstGap(columns, row, k + 1)
  }

  /** How many columns the first scan lists: each one before its value is looked at. */
  function ListedCount(columns: seq<nat>, markers: bool, row: Row): (n: nat)
    requires forall i :: 0 <= i < |columns| ==> columns[i] < |row|
    ensures n <= |columns|
  {
    var k := FirstGap(columns, row, 0);
    if markers || k == |columns| then |columns| else k + 1
  }

  /** What the first `n` entries list, and what the allocated memory held in the others. */
  function Partly(columns: seq<nat>, n: nat, memory: nat -> nat): (list: seq<nat>)
    ensures |list| == |columns|
  {
    seq(|columns|, k requires 0 <= k < |columns| => if k < n then columns[k] else memory(k + 1))
  }

  /** The cache after a call. Only the first scan that finds a key writes it; `memory` is what the memory allocated for
      it holds. */
  function After(fields: seq<Field>, c: Cache, table: Table, markers: bool, row: Row, memory: nat -> nat): Cache
    requires |row| == |fields|
  {
    if c.indexType != UNDECIDED then c
    else match BestFlag(fields, table)
      case None => if table.columns < 0 then c else Cache(IMPOSSIBLE, None)
      case Some(flag) =>
        if flag == 0 then Cache(ALL_COLUMNS, None)
        else
          ColumnsInRange(fields, flag);
          Cache(flag, Some(Partly(Columns(fields, flag), ListedCount(Columns(fields, flag), markers, row), memory)))
  }

  lemma ColumnsInRange(fields: seq<Field>, flag: int)
    ensures InRange(fields, Columns(fields, flag))
  {
    ChosenInOrder(fields, flag, |fields|);
  }

  // ---------- When the cache is right ----------

  /** The list is the one of the key. */
  predicate Right(fields: seq<Field>, c: Cache) { c.list.Some? ==> c.list.value == Columns(fields, c.indexType) }

  /** No column but the last one is null or cannot be read. */
  predicate GapsOnlyLast(columns: seq<nat>, row: Row) {
    forall k :: 0 <= k < |columns| - 1 && columns[k] < |row| ==> row[columns[k]].Text?
  }

  /** The first scan writes the whole list if and only if the clause has markers, or no column of the key other than
      the last one is null or cannot be read. */
  lemma ListedCompletely(columns: seq<nat>, markers: bool, row: Row)
    requires forall i :: 0 <= i < |columns| ==> columns[i] < |row|
    ensures ListedCount(columns, markers, row) == |columns| <==> markers || GapsOnlyLast(columns, row)
  {
  }

  /** So the list is the one of the key whatever the memory held if and only if the same is true. */
  lemma ScanRight(columns: seq<nat>, markers: bool, row: Row)
    requires forall i :: 0 <= i < |columns| ==> columns[i] < |row|
    ensures (forall memory: nat -> nat :: Partly(columns, ListedCount(columns, markers, row), memory) == columns)
            <==> markers || GapsOnlyLast(columns, row)
  {
    ListedCompletely(columns, markers, row);
    var n := ListedCount(columns, markers, row);
    if n < |columns| {
      var memory := (k: nat) => columns[n] + 1;
      assert Partly(columns, n, memory)[n] != columns[n];
    }
  }

  datatype Call = Call(table: Table, markers: bool, row: Row)

  predicate Fitting(fields: seq<Field>, calls: seq<Call>) {
    forall i :: 0 <= i < |calls| ==> |calls[i].row| == |fields|
  }

  /** The cache of a cursor after the calls. Memory for it is allocated once at most. */
  function Run(fields: seq<Field>, calls: seq<Call>, memory: nat -> nat): Cache
    requires Fitting(fields, calls)
  {
    if calls == [] then NEW
    else
      var k := |calls| - 1;
      After(fields, Run(fields, calls[..k], memory), calls[k].table, calls[k].markers, calls[k].row, memory)
  }

  /** The first call for which the server says anything about the table. */
  function Deciding(calls: seq<Call>): (k: nat)
    ensures k <= |calls| && (k < |calls| ==> calls[k].table.columns >= 0)
    ensures forall i :: 0 <= i < k ==> calls[i].table.columns < 0
  {
    if calls == [] then 0
    else
      var k := Deciding(calls[..|calls| - 1]);
      if k < |calls| - 1 || calls[|calls| - 1].table.columns >= 0 then k else k + 1
  }

  /** That call alone decides about the cache. */
  lemma {:induction false} DecidedOnce(fields: seq<Field>, calls: seq<Call>, memory: nat -> nat)
    requires Fitting(fields, calls)
    ensures Run(fields, calls, memory) ==
              if Deciding(calls) == |calls| then NEW
              else var d := calls[Deciding(calls)]; After(fields, NEW, d.table, d.markers, d.row, memory)
    ensures Shaped(Run(fields, calls, memory))
    decreases |calls|
  {
    hide Columns, ListedCount, Partly;
    if calls != [] {
      DecidedOnce(fields, calls[..|calls| - 1], memory);
      BestFlagIsFlag(fields, calls[|calls| - 1].table);
    }
  }

  lemma BestFlagIsFlag(fields: seq<Field>, table: Table)
    ensures BestFlag(fields, table).Some? ==>
              && BestFlag(fields, table).value in {0, PRI_KEY_FLAG, UNIQUE_KEY_FLAG}
              && (BestFlag(fields, table).value != 0 ==> Columns(fields, BestFlag(fields, table).value) != [])
    ensures table.columns < 0 ==> BestFlag(fields, table).None?
  {
  }

  /** The deciding call, if it finds a key, asks for markers or for a row whose values before the last key column can be
      read and are not null. */
  predicate Careful(fields: seq<Field>, calls: seq<Call>) {
    var k := Deciding(calls);
    k == |calls| ||
    match BestFlag(fields, calls[k].table)
    case None => true
    case Some(flag) => flag == 0 || calls[k].markers || GapsOnlyLast(Columns(fields, flag), calls[k].row)
  }

  /** For every history of calls on a cursor: the cache lists exactly the columns of the key, whatever memory it was
      written into, if and only if the history is careful. */
  lemma HistoryRight(fields: seq<Field>, calls: seq<Call>)
    requires Fitting(fields, calls)
    ensures (forall memory: nat -> nat :: Right(fields, Run(fields, calls, memory))) <==> Careful(fields, calls)
  {
    hide Columns, ListedCount, Partly, GapsOnlyLast, Run, Right, BestFlag;
    if Deciding(calls) < |calls| && BestFlag(fields, calls[Deciding(calls)].table).Some? {
      var d := calls[Deciding(calls)];
      var flag := BestFlag(fields, d.table).value;
      var columns := Columns(fields, flag);
      ColumnsInRange(fields, flag);
      ScanRight(columns, d.markers, d.row);
      if !Careful(fields, calls) {
        var memory: nat -> nat :| Partly(columns, ListedCount(columns, d.markers, d.row), memory) != columns;
        RunRight(fields, calls, memory);
      }
    }
    if Careful(fields, calls) {
      forall memory: nat -> nat
        ensures Right(fields, Run(fields, calls, memory))
      {
        RunRight(fields, calls, memory);
      }
    }
  }

  lemma RunRight(fields: seq<Field>, calls: seq<Call>, memory: nat -> nat)
    requires Fitting(fields, calls)
    ensures Right(fields, Run(fields, calls, memory)) <==> DecidedRight(fields, calls, memory)
  {
    hide Columns, ListedCount, Partly, Run;
    DecidedOnce(fields, calls, memory);
  }

  predicate DecidedRight(fields: seq<Field>, calls: seq<Call>, memory: nat -> nat)
    requires Fitting(fields, calls)
  {
    var k := Deciding(calls);
    k == |calls| || BestFlag(fields, calls[k].table).None? ||
    var flag := BestFlag(fields, calls[k].table).value;
    ColumnsInRange(fields, flag);
    flag == 0 ||
    Partly(Columns(fields, flag), ListedCount(Columns(fields, flag), calls[k].markers, calls[k].row), memory)
      == Columns(fields, flag)
  }

  // ---------- What a wrong list does ----------

  lemma {:induction false} WalkMeets(fields: seq<Field>, columns: seq<nat>, flag: int, markers: bool, row: Row, k: nat)
    requires |row| == |fields| && k <= |columns| && InRange(fields, columns)
    ensures Walk(fields, columns, flag, markers, row, k) ==
              if markers || forall i :: k <= i < |columns| ==> !Stops(row[columns[i]], flag)
              then Built(" WHERE 1" + Conditions(fields, columns, markers, row) + " LIMIT 1") else Failed
    decreases |columns| - k
  {
    hide Conditions;
    if k < |columns| {
      WalkMeets(fields, columns, flag, markers, row, k + 1);
    }
  }

  /** After a careful history every clause goes over exactly the columns of the key, in order; it has one condition for
      each of them, unless values are wanted and one cannot be read or is null in a key. */
  lemma CarefulClause(fields: seq<Field>, calls: seq<Call>, memory: nat -> nat, table: Table, markers: bool, row: Row)
    requires Fitting(fields, calls) && Careful(fields, calls) && |row| == |fields|
    ensures var flag := FlagFor(fields, Run(fields, calls, memory), table);
            var clause := Clause(fields, Run(fields, calls, memory), table, markers, row);
            && (flag.None? ==> clause == Failed)
            && (flag.Some? ==>
                  && InRange(fields, Columns(fields, flag.value))
                  && clause == if markers || forall c :: c in Columns(fields, flag.value) ==> !Stops(row[c], flag.value)
                               then Built(" WHERE 1" +
                                          Conditions(fields, Columns(fields, flag.value), markers, row) + " LIMIT 1")
                               else Failed)
  {
    hide Columns, Run, Conditions, Careful;
    HistoryRight(fields, calls);
    assert Right(fields, Run(fields, calls, memory));
    var flag := FlagFor(fields, Run(fields, calls, memory), table);
    if flag.Some? {
      ColumnsInRange(fields, flag.value);
      WalkMeets(fields, Columns(fields, flag.value), flag.value, markers, row, 0);
    }
  }

  /** Without care there is memory with which even a clause with markers leaves the columns of the result. */
  lemma CarelessClause(fields: seq<Field>, calls: seq<Call>, table: Table, row: Row)
    requires Fitting(fields, calls) && !Careful(fields, calls) && |row| == |fields|
    ensures exists memory: nat -> nat :: Clause(fields, Run(fields, calls, memory), table, true, row) == Wild
  {
    hide Run, Conditions, BestFlag, GapsOnlyLast, FirstGap, Columns;
    var d := calls[Deciding(calls)];
    var flag := BestFlag(fields, d.table).value;
    var columns, memory := Columns(fields, flag), (k: nat) => |fields|;
    ColumnsInRange(fields, flag);
    BestFlagIsFlag(fields, d.table);
    ListedCompletely(columns, d.markers, d.row);
    DecidedOnce(fields, calls, memory);
    PartlyWild(fields, columns, ListedCount(columns, d.markers, d.row), memory, flag, row, 0);
    assert Clause(fields, Run(fields, calls, memory), table, true, row) == Wild;
  }

  lemma {:induction false} PartlyWild(fields: seq<Field>, columns: seq<nat>, n: nat, memory: nat -> nat, flag: int,
      row: Row, k: nat)
    requires |row| == |fields| && InRange(fields, columns) && k <= n < |columns| && memory(n + 1) >= |fields|
    ensures InRange(fields, Partly(columns, n, memory)[..k])
    ensures Walk(fields, Partly(columns, n, memory), flag, true, row, k) == Wild
    decreases n - k
  {
    if k < n {
      PartlyWild(fields, columns, n, memory, flag, row, k + 1);
    }
  }

  // A table with a unique key of two columns and a third column that the result does not have.
  const PAIR := [Field("a", false, true), Field("b", false, true)]
  const KEYED := Table(3, 0, 2)

  lemma PairKey()
    ensures Columns(PAIR, PRI_KEY_FLAG) == [] && Columns(PAIR, UNIQUE_KEY_FLAG) == [0, 1]
    ensures BestFlag(PAIR, KEYED) == Some(UNIQUE_KEY_FLAG)
  {
    assert ChosenBelow(PAIR, PRI_KEY_FLAG, 1) == [];
    assert ChosenBelow(PAIR, UNIQUE_KEY_FLAG, 1) == [0];
  }

  lemma TwoConditions(row: Row, second: nat)
    requires |row| == 2 && second < 2
    ensures Conditions(PAIR, [0, second], false, row)
            == Condition(PAIR[0], false, row[0]) + Condition(PAIR[second], false, row[second])
  {
    hide Condition;
    assert [0, second][..1] == [0] && [0][..0] == [];
    assert Conditions(PAIR, [0], false, row) == Condition(PAIR[0], false, row[0]);
  }

  lemma NameInCondition(f: Field, markers: bool, cell: Cell)
    requires f.name != ""
    ensures |Condition(f, markers, cell)| > 6 && Condition(f, markers, cell)[6] == f.name[0]
  {
  }

  const FIRST_ROW: Row := [Null, Text("x")]

  function Cleared(k: nat): nat { 0 }

  lemma SpoiledCache()
    ensures After(PAIR, NEW, KEYED, false, FIRST_ROW, Cleared) == Cache(UNIQUE_KEY_FLAG, Some([0, 0]))
    ensures Clause(PAIR, NEW, KEYED, false, FIRST_ROW) == Failed
  {
    hide Columns, BestFlag, Walk, Partly, ListedCount;
    PairKey();
    FirstRowFails(FIRST_ROW);
  }

  /** The first row has a null in the first key column, so that no clause is made for it. If the memory held zeros, the
      clause for the second row, which has no nulls, compares the first column twice, and is not the one over the
      key. */
  lemma NullSpoilsTheCache(second: Row)
    requires |second| == 2 && second[0].Text? && second[1].Text?
    ensures Clause(PAIR, NEW, KEYED, false, FIRST_ROW) == Failed
    ensures var c := After(PAIR, NEW, KEYED, false, FIRST_ROW, Cleared);
            && Clause(PAIR, c, KEYED, false, second)
               == Built(" WHERE 1" + Conditions(PAIR, [0, 0], false, second) + " LIMIT 1")
            && Clause(PAIR, NEW, KEYED, false, second)
               == Built(" WHERE 1" + Conditions(PAIR, [0, 1], false, second) + " LIMIT 1")
            && Clause(PAIR, c, KEYED, false, second) != Clause(PAIR, NEW, KEYED, false, second)
  {
    hide Columns, BestFlag, Walk, Conditions, After;
    SpoiledCache();
    PairKey();
    FullRowClause(second, 0);
    FullRowClause(second, 1);
    ClausesDiffer(second);
  }

  lemma FirstRowFails(first: Row)
    requires |first| == 2 && first[0].Null?
    ensures Walk(PAIR, [0, 1], UNIQUE_KEY_FLAG, false, first, 0) == Failed
    ensures Partly([0, 1], ListedCount([0, 1], false, first), Cleared) == [0, 0]
  {
    var columns: seq<nat> := [0, 1];
    assert first[columns[0]].Null?;
    assert FirstGap(columns, first, 0) == 0;
    assert ListedCount(columns, false, first) == 1;
    assert Partly(columns, 1, Cleared) == [0, 0];
  }

  lemma FullRowClause(row: Row, second: nat)
    requires |row| == 2 && row[0].Text? && row[1].Text? && second < 2
    ensures Walk(PAIR, [0, second], UNIQUE_KEY_FLAG, false, row, 0)
            == Built(" WHERE 1" + Conditions(PAIR, [0, second], false, row) + " LIMIT 1")
  {
    hide Walk, Conditions;
    WalkMeets(PAIR, [0, second], UNIQUE_KEY_FLAG, false, row, 0);
  }

  lemma ClausesDiffer(row: Row)
    requires |row| == 2
    ensures " WHERE 1" + Conditions(PAIR, [0, 0], false, row) + " LIMIT 1"
         != " WHERE 1" + Conditions(PAIR, [0, 1], false, row) + " LIMIT 1"
  {
    hide Condition;
    var a, b := Condition(PAIR[0], false, row[0]), Condition(PAIR[1], false, row[1]);
    TwoConditions(row, 0);
    TwoConditions(row, 1);
    NameInCondition(PAIR[0], false, row[0]);
    NameInCondition(PAIR[1], false, row[1]);
    var x, y := " WHERE 1" + (a + a) + " LIMIT 1", " WHERE 1" + (a + b) + " LIMIT 1";
    assert x[8 + |a| + 6] == a[6] && y[8 + |a| + 6] == b[6];
  }

  // ---------- The statement ----------

  class Cursor {
    const fields: seq<Field>
    var uniqueIndex: array?<nat>
    var indexType: int

    constructor (fields: seq<Field>)
      ensures this.fields == fields && Valid() && Now() == NEW
    {
      this.fields, uniqueIndex, indexType := fields, null, UNDECIDED;
    }

    /** The first entry of UniqueIndex counts the others; nothing is said about what they list. */
    ghost predicate Valid()
      reads this, uniqueIndex
    {
      && (uniqueIndex != null ==> uniqueIndex.Length > 1 && uniqueIndex[0] == uniqueIndex.Length - 1)
      && Shaped(Now())
    }

    ghost function Now(): Cache
      reads this, uniqueIndex
    {
      Cache(indexType, if uniqueIndex == null || uniqueIndex.Length == 0 then None else Some(uniqueIndex[1..]))
    }

    method CountKeys() returns (primary: nat, unique: nat)
      ensures primary == |Columns(fields, PRI_KEY_FLAG)| && unique == |Columns(fields, UNIQUE_KEY_FLAG)|
    {
      primary, unique := 0, 0;
      for i := 0 to |fields|
        invariant primary == |ChosenBelow(fields, PRI_KEY_FLAG, i)|
                  && unique == |ChosenBelow(fields, UNIQUE_KEY_FLAG, i)|
      {
        if fields[i].primary {
          primary := primary + 1;
        }
        if fields[i].unique {
          unique := unique + 1;
        }
      }
    }

    /** Decides how rows are found, and makes room for the list of key columns; the room is not cleared. */
    method ChooseKey(table: Table, memory: nat -> nat) returns (failed: bool, flag: int)
      requires Valid() && Now() == NEW
      modifies this
      ensures failed <==> BestFlag(fields, table).None?
      ensures failed ==> Now() == Cache(if table.columns < 0 then UNDECIDED else IMPOSSIBLE, None)
      ensures !failed ==> flag == BestFlag(fields, table).value && (uniqueIndex == null || fresh(uniqueIndex))
      ensures !failed && flag == 0 ==> Now() == Cache(ALL_COLUMNS, None)
      ensures !failed && flag != 0 ==> Now() == Cache(flag, Some(Partly(Columns(fields, flag), 0, memory)))
      ensures Valid()
    {
      hide ChosenBelow;
      BestFlagIsFlag(fields, table);
      var primary, unique := CountKeys();
      if table.columns < 0 {
        return true, 0;
      }
      if primary != table.primary {
        primary := 0;
      }
      if unique != table.unique {
        unique := 0;
      }
      var total := 0;
      flag := 0;
      if primary != 0 {
        flag, total := PRI_KEY_FLAG, primary;
      } else if unique != 0 {
        flag, total := UNIQUE_KEY_FLAG, unique;
      } else if table.columns != |fields| {
        indexType := IMPOSSIBLE;
        return true, 0;
      }
      if total != 0 {
        var room := new nat[total + 1](k requires k >= 0 => memory(k));
        assert forall k :: 0 <= k <= total ==> room[k] == memory(k);
        room[0] := total;
        assert total == |Columns(fields, flag)|;
        assert forall k :: 1 <= k <= total ==> room[k] == memory(k);
        assert forall k :: 0 <= k < total ==> room[1..][k] == room[k + 1];
        AllAsAllocated(room[1..], Columns(fields, flag), memory);
        uniqueIndex, indexType := room, flag;
      } else {
        indexType := ALL_COLUMNS;
      }
      failed := false;
    }

    /** A column is listed; an entry that lists it already stays as it is. */
    method ListColumn(k: nat, column: nat)
      requires uniqueIndex != null && 0 < k < uniqueIndex.Length
      modifies uniqueIndex
      ensures uniqueIndex[0] == old(uniqueIndex[0]) && uniqueIndex[1..] == old(uniqueIndex[1..])[k - 1 := column]
    {
      uniqueIndex[k] := column;
    }

    /** The loop over the columns: all of them in the first scan, looking for the chosen ones, which are then listed in
        the cache; the cached ones later on. */
    method AppendConditions(cached: bool, flag: int, markers: bool, row: Row, ghost memory: nat -> nat)
      returns (r: Result)
      requires Valid() && |row| == |fields|
      requires if cached then uniqueIndex != null && flag == indexType
               else if flag == 0 then uniqueIndex == null
               else Now() == Cache(flag, Some(Partly(Columns(fields, flag), 0, memory)))
      modifies uniqueIndex
      ensures Valid() && indexType == old(indexType) && uniqueIndex == old(uniqueIndex)
      ensures r == Walk(fields, if cached then old(uniqueIndex[1..]) else Columns(fields, flag), flag, markers, row, 0)
      ensures cached ==> Now() == old(Now())
      ensures InRange(fields, Columns(fields, flag))
      ensures !cached && flag != 0 ==>
                var columns := Columns(fields, flag);
                uniqueIndex[1..] == Partly(columns, ListedCount(columns, markers, row), memory)
    {
      hide Chosen, Conditions, Condition, ChosenBelow, Columns, Walk, Partly, ListedCount, Stops, NoStopYet;
      ColumnsInRange(fields, flag);
      ghost var columns := if cached then uniqueIndex[1..] else Columns(fields, flag);
      ghost var done := 0;
      var total: int, arrIdx := if flag != 0 then uniqueIndex[0] else 0, if cached then 1 else 0;
      var i := if cached then uniqueIndex[1] else 0;
      var text := " WHERE 1";
      NothingYet(fields, columns, flag, markers, row);
      PartlyLength(columns, memory);
      while if arrIdx == 0 then i < |fields| else arrIdx <= uniqueIndex[0]
        invariant done <= |columns| && InRange(fields, columns[..done])
        invariant Valid()
        invariant flag != 0 ==> uniqueIndex != null && uniqueIndex[0] == |columns| && total == |columns| - done
        invariant if cached
                  then arrIdx == done + 1 && (done < |columns| ==> i == columns[done]) && uniqueIndex[1..] == columns
                  else arrIdx == 0 && i <= |fields| && ChosenBelow(fields, flag, i) == columns[..done]
        invariant !cached && flag != 0 ==> uniqueIndex[1..] == Partly(columns, done, memory)
        invariant NoStopYet(columns, flag, markers, row, done)
        invariant Walk(fields, columns, flag, markers, row, 0) == Walk(fields, columns, flag, markers, row, done)
        invariant text == " WHERE 1" + Conditions(fields, columns[..done], markers, row)
        decreases if arrIdx == 0 then |fields| - i else |columns| + 1 - arrIdx
      {
        if arrIdx == 0 {
          ChosenNext(fields, flag, i, done);
        }
        if arrIdx != 0 || Chosen(fields[i], flag) {
          assert i == columns[done];
          if i >= |fields| {
            WalkEnds(fields, columns, flag, markers, row, done);
            return Wild;
          }
          if flag != 0 {
            total := total - 1;
            ListColumn(uniqueIndex[0] - total, i);
            ListedNext(columns, done, memory);
          }
          if !markers && Stops(row[i], flag) {
            WalkEnds(fields, columns, flag, markers, row, done);
            if flag != 0 {
              CountedStop(columns, flag, markers, row, done);
            }
            return Failed;
          }
          OneMore(fields, columns, flag, markers, row, done);
          text := text + Condition(fields[i], markers, row[i]);
          done := done + 1;
        }
        if arrIdx == 0 {
          i := i + 1;
        } else {
          arrIdx := arrIdx + 1;
          i := if arrIdx > uniqueIndex[0] then 0 else uniqueIndex[arrIdx];
        }
      }
      ColumnsAre(fields, flag);
      assert done == |columns|;
      AllDone(fields, columns, flag, markers, row);
      return Built(text + " LIMIT 1");
    }

    /** MADB_DynStrGetWhere: the clause for the current row, and the cache it leaves. */
    method GetWhere(table: Table, markers: bool, row: Row, memory: nat -> nat) returns (r: Result)
      requires Valid() && |row| == |fields|
      modifies this, uniqueIndex
      ensures Valid() && Now() == After(fields, old(Now()), table, markers, row, memory)
      ensures r == Clause(fields, old(Now()), table, markers, row)
    {
      hide Walk, ChosenBelow, Columns, BestFlag, Partly, ListedCount;
      ColumnsInRange(fields, indexType);
      var cached, flag, failed := uniqueIndex != null, 0, false;
      if uniqueIndex != null {
        flag := indexType;
      } else if indexType < 0 {
        return Failed;
      } else if indexType == 0 {
        failed, flag := ChooseKey(table, memory);
        if failed {
          return Failed;
        }
      }
      BestFlagIsFlag(fields, table);
      r := AppendConditions(cached, flag, markers, row, memory);
    }
  }

  // ---------- Steps of the loop ----------

  lemma AllAsAllocated(room: seq<nat>, columns: seq<nat>, memory: nat -> nat)
    requires |room| == |columns| && forall k :: 0 <= k < |room| ==> room[k] == memory(k + 1)
    ensures room == Partly(columns, 0, memory)
  {
  }

  lemma ColumnsAre(fields: seq<Field>, flag: int)
    ensures Columns(fields, flag) == ChosenBelow(fields, flag, |fields|)
  {
  }

  lemma PartlyLength(columns: seq<nat>, memory: nat -> nat)
    ensures |Partly(columns, 0, memory)| == |columns|
  {
  }

  /** No value that is wanted has ended the scan so far. */
  predicate NoStopYet(columns: seq<nat>, flag: int, markers: bool, row: Row, n: nat)
    requires n <= |columns|
  {
    markers || forall i :: 0 <= i < n ==> columns[i] < |row| && !Stops(row[columns[i]], flag)
  }

  lemma NothingYet(fields: seq<Field>, columns: seq<nat>, flag: int, markers: bool, row: Row)
    requires |row| == |fields|
    ensures InRange(fields, columns[..0]) && Conditions(fields, columns[..0], markers, row) == ""
    ensures ChosenBelow(fields, flag, 0) == columns[..0] && NoStopYet(columns, flag, markers, row, 0)
  {
  }

  lemma ListedNext(columns: seq<nat>, n: nat, memory: nat -> nat)
    requires n < |columns|
    ensures Partly(columns, n, memory)[n := columns[n]] == Partly(columns, n + 1, memory)
    ensures columns[n := columns[n]] == columns
  {
  }

  lemma WalkEnds(fields: seq<Field>, columns: seq<nat>, flag: int, markers: bool, row: Row, n: nat)
    requires |row| == |fields| && n < |columns| && InRange(fields, columns[..n])
    ensures columns[n] >= |fields| ==> Walk(fields, columns, flag, markers, row, n) == Wild
    ensures columns[n] < |fields| && !markers && Stops(row[columns[n]], flag) ==>
              Walk(fields, columns, flag, markers, row, n) == Failed
  {
  }

  lemma CountedStop(columns: seq<nat>, flag: int, markers: bool, row: Row, n: nat)
    requires !markers && flag != 0 && n < |columns| && columns[n] < |row| && Stops(row[columns[n]], flag)
    requires NoStopYet(columns, flag, markers, row, n)
    ensures (forall i :: 0 <= i < |columns| ==> columns[i] < |row|) ==> ListedCount(columns, markers, row) == n + 1
  {
  }

  lemma OneMore(fields: seq<Field>, columns: seq<nat>, flag: int, markers: bool, row: Row, n: nat)
    requires |row| == |fields| && n < |columns| && InRange(fields, columns[..n]) && columns[n] < |fields|
    requires markers || !Stops(row[columns[n]], flag)
    ensures InRange(fields, columns[..n + 1])
    ensures NoStopYet(columns, flag, markers, row, n) ==> NoStopYet(columns, flag, markers, row, n + 1)
    ensures Walk(fields, columns, flag, markers, row, n) == Walk(fields, columns, flag, markers, row, n + 1)
    ensures Conditions(fields, columns[..n + 1], markers, row)
         == Conditions(fields, columns[..n], markers, row) + Condition(fields[columns[n]], markers, row[columns[n]])
  {
    hide Condition;
    assert columns[..n + 1][..n] == columns[..n];
  }

  lemma AllDone(fields: seq<Field>, columns: seq<nat>, flag: int, markers: bool, row: Row)
    requires |row| == |fields| && InRange(fields, columns[..|columns|])
    ensures Walk(fields, columns, flag, markers, row, |columns|)
            == Built(" WHERE 1" + Conditions(fields, columns[..|columns|], markers, row) + " LIMIT 1")
    ensures NoStopYet(columns, flag, markers, row, |columns|) && flag != 0 ==>
            ListedCount(columns, markers, row) == |columns|
  {
    assert columns[..|columns|] == columns;
  }

  lemma ChosenNext(fields: seq<Field>, flag: int, i: nat, done: nat)
    requires i < |fields| && done <= |Columns(fields, flag)|
             && ChosenBelow(fields, flag, i) == Columns(fields, flag)[..done]
    ensures if Chosen(fields[i], flag) then done < |Columns(fields, flag)| && Columns(fields, flag)[done] == i
                                            && ChosenBelow(fields, flag, i + 1) == Columns(fields, flag)[..done + 1]
            else ChosenBelow(fields, flag, i + 1) == Columns(fields, flag)[..done]
  {
    ChosenPrefix(fields, flag, i + 1, |fields|);
    var next, all := ChosenBelow(fields, flag, i + 1), Columns(fields, flag);
    assert next == all[..|next|];
  }

  // ---------- Binding ----------

  /** What the loop over the columns from `j` on binds, with `k` of the listed ones found so far. */
  function BoundBy(columns: seq<nat>, j: nat, n: nat, k: nat, first: int, bound: map<int, nat>): map<int, nat>
    requires j <= n
    decreases n - j
  {
    if j == n then bound
    else if k < |columns| && columns[k] == j then BoundBy(columns, j + 1, n, k + 1, first, bound[first + k + 1 := j])
    else BoundBy(columns, j + 1, n, k, first, bound)
  }

  /** Parameter `first + k + 1` has the value of column `columns[k]`, and no other parameter is bound. */
  ghost predicate BoundInOrder(bound: map<int, nat>, first: int, columns: seq<nat>) {
    && (forall p :: p in bound <==> first < p <= first + |columns|)
    && (forall p :: p in bound ==> bound[p] == columns[p - first - 1])
  }

  /** From place `k` on the columns ascend, from `j` on and below `n`. */
  predicate Ascending(columns: seq<nat>, k: nat, j: nat, n: nat) {
    && (forall i :: k <= i < |columns| ==> j <= columns[i] < n)
    && (forall h, i :: k <= h < i < |columns| ==> columns[h] < columns[i])
  }

  lemma BindNext(bound: map<int, nat>, first: int, columns: seq<nat>, k: nat)
    requires k < |columns| && BoundInOrder(bound, first, columns[..k])
    ensures BoundInOrder(bound[first + k + 1 := columns[k]], first, columns[..k + 1])
  {
  }

  lemma BoundSoFar(bound: map<int, nat>, first: int, columns: seq<nat>, k: nat)
    requires k <= |columns| && BoundInOrder(bound, first, columns[..k])
    ensures BoundInOrder(bound, first, columns) <==> k == |columns|
  {
    if k == |columns| {
      assert columns[..k] == columns;
    } else {
      assert first + |columns| !in bound;
    }
  }

  lemma AscendingNext(columns: seq<nat>, k: nat, j: nat, n: nat)
    requires k <= |columns| && j < n
    ensures Ascending(columns, k, j, n) <==>
              Ascending(columns, if k < |columns| && columns[k] == j then k + 1 else k, j + 1, n)
  {
    if k < |columns| && columns[k] != j && Ascending(columns, k, j, n) {
      assert forall i :: k < i < |columns| ==> columns[k] < columns[i];
    }
  }

  /** The loop binds every marker to its column if and only if the list ascends within the columns of the result. */
  lemma {:induction false} BindsInOrder(columns: seq<nat>, j: nat, n: nat, k: nat, first: int, bound: map<int, nat>)
    requires j <= n && k <= |columns| && BoundInOrder(bound, first, columns[..k])
    ensures BoundInOrder(BoundBy(columns, j, n, k, first, bound), first, columns) <==> Ascending(columns, k, j, n)
    decreases n - j
  {
    hide BoundInOrder, Ascending;
    if j == n {
      BoundSoFar(bound, first, columns, k);
      NothingAscends(columns, k, n);
    } else {
      AscendingNext(columns, k, j, n);
      if k < |columns| && columns[k] == j {
        BindNext(bound, first, columns, k);
        BindsInOrder(columns, j + 1, n, k + 1, first, bound[first + k + 1 := j]);
      } else {
        BindsInOrder(columns, j + 1, n, k, first, bound);
      }
    }
  }

  lemma NothingAscends(columns: seq<nat>, k: nat, n: nat)
    requires k <= |columns|
    ensures Ascending(columns, k, n, n) <==> k == |columns|
  {
    if k < |columns| {
      var c := columns[k];
      assert !(n <= c < n);
    }
  }

  lemma NothingBound(first: int, columns: seq<nat>)
    ensures BoundInOrder(map[], first, columns[..0])
  {
  }

  lemma ColumnsAscend(fields: seq<Field>, flag: int)
    ensures Ascending(Columns(fields, flag), 0, 0, |fields|)
  {
    ChosenInOrder(fields, flag, |fields|);
  }

  /** The loop of MADB_ExecutePositionedUpdate: goes over all columns of the cursor and binds the values of the listed
      ones to the last parameters of the statement. */
  method BindKeys(c: Cursor, paramCount: nat) returns (bound: map<int, nat>)
    requires c.Valid() && paramCount >= |Walked(c.fields, c.Now(), 0)|
    ensures var columns := Walked(c.fields, c.Now(), 0);
            bound == BoundBy(columns, 0, |c.fields|, 0, paramCount - |columns|, map[])
  {
    hide Chosen, ChosenBelow, Columns;
    ghost var columns, first := Walked(c.fields, c.Now(), 0), paramCount - |Walked(c.fields, c.Now(), 0)|;
    var indexIdx := 1;
    bound := map[];
    AllColumns(c.fields);
    for j := 1 to |c.fields| + 1
      invariant c.uniqueIndex != null ==> 1 <= indexIdx <= |columns| + 1
      invariant BoundBy(columns, 0, |c.fields|, 0, first, map[])
                == BoundBy(columns, j - 1, |c.fields|,
                           if c.uniqueIndex == null then j - 1 else indexIdx - 1, first, bound)
    {
      if c.uniqueIndex == null
         || (c.uniqueIndex[0] != 0 && indexIdx <= c.uniqueIndex[0] && j == c.uniqueIndex[indexIdx] + 1) {
        if c.uniqueIndex != null {
          bound := bound[indexIdx + (paramCount - c.uniqueIndex[0]) := j - 1];
          indexIdx := indexIdx + 1;
        } else {
          bound := bound[j + (paramCount - |c.fields|) := j - 1];
        }
      }
    }
  }

  lemma AllColumns(fields: seq<Field>)
    ensures |Columns(fields, 0)| == |fields| && forall i :: 0 <= i < |fields| ==> Columns(fields, 0)[i] == i
  {
    AllChosen(fields, |fields|);
  }

  /** A positioned command with `mainParams` parameters of its own. The clause has a condition with a marker for each
      column gone over, and these are bound after the parameters of the command: in the order of the markers if and only
      if the list ascends within the columns, as the one of a key does. */
  method PositionedUpdate(c: Cursor, table: Table, mainParams: nat, row: Row, memory: nat -> nat)
    returns (r: Result, bound: map<int, nat>)
    requires c.Valid() && |row| == |c.fields|
    modifies c, c.uniqueIndex
    ensures c.Valid() && c.Now() == After(c.fields, old(c.Now()), table, true, row, memory)
    ensures r == Clause(c.fields, old(c.Now()), table, true, row)
    ensures var columns := Walked(c.fields, c.Now(), 0);
            r.Built? ==> (BoundInOrder(bound, mainParams, columns) <==> Ascending(columns, 0, 0, |c.fields|))
    ensures r.Built? && Right(c.fields, c.Now()) ==> BoundInOrder(bound, mainParams, Walked(c.fields, c.Now(), 0))
  {
    hide Chosen, ChosenBelow, Columns, BoundInOrder, Ascending, BestFlag, Walk, Partly, ListedCount;
    r := c.GetWhere(table, true, row, memory);
    bound := map[];
    if r.Built? {
      ghost var columns := Walked(c.fields, c.Now(), 0);
      AllColumns(c.fields);
      var keys := if c.uniqueIndex != null && c.uniqueIndex[0] > 0 then c.uniqueIndex[0] else |c.fields|;
      bound := BindKeys(c, mainParams + keys);
      NothingBound(mainParams, columns);
      BindsInOrder(columns, 0, |c.fields|, 0, mainParams, map[]);
      ColumnsAscend(c.fields, if c.uniqueIndex == null then 0 else c.indexType);
    }
  }
}
