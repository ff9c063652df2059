/** Over which columns a positioned command finds its row, by counting what the result and the table have of a key; and
    what the conditions on these columns say about a row. */
module PositionedKeys {
  import opened Common
  import opened PositionedWhere

  // ---------- The columns of a key ----------

  function PrimaryColumns(fields: seq<Field>): set<nat> { set i: nat | i < |fields| && fields[i].primary }

  function UniqueColumns(fields: seq<Field>): set<nat> { set i: nat | i < |fields| && fields[i].unique }

  /** The result has every column of the primary key of the table. */
  predicate PrimaryComplete(fields: seq<Field>, table: Table) {
    PrimaryColumns(fields) != {} && |PrimaryColumns(fields)| == table.primary
  }

  predicate UniqueComplete(fields: seq<Field>, table: Table) {
    UniqueColumns(fields) != {} && |UniqueColumns(fields)| == table.unique
  }

  /** The server says nothing about the table, or the result has neither a complete key nor all columns. */
  predicate Hopeless(fields: seq<Field>, table: Table) {
    || table.columns < 0
    || (!PrimaryComplete(fields, table) && !UniqueComplete(fields, table) && table.columns != |fields|)
  }

  /** In ascending order, exactly these columns. */
  ghost predicate Lists(columns: seq<nat>, which: set<nat>) {
    && (forall i, j :: 0 <= i < j < |columns| ==> columns[i] < columns[j])
    && (forall c: nat :: c in columns <==> c in which)
  }

  function ChosenSet(fields: seq<Field>, flag: int, n: nat): set<nat>
    requires n <= |fields|
  {
    set i: nat | i < n && Chosen(fields[i], flag)
  }

  lemma {:induction false} CountsChosen(fields: seq<Field>, flag: int, n: nat)
    requires n <= |fields|
    ensures |ChosenBelow(fields, flag, n)| == |ChosenSet(fields, flag, n)|
  {
    hide Chosen;
    if n > 0 {
      CountsChosen(fields, flag, n - 1);
      var before := ChosenSet(fields, flag, n - 1);
      ChosenSetNext(fields, flag, n - 1);
      assert n - 1 !in before;
    }
  }

  lemma ChosenSetNext(fields: seq<Field>, flag: int, n: nat)
    requires n < |fields|
    ensures ChosenSet(fields, flag, n + 1)
            == ChosenSet(fields, flag, n) + if Chosen(fields[n], flag) then {n} else {}
  {
    hide Chosen;
  }

  /** What the driver counts and lists. */
  lemma KeyColumns(fields: seq<Field>)
    ensures ChosenSet(fields, PRI_KEY_FLAG, |fields|) == PrimaryColumns(fields)
    ensures ChosenSet(fields, UNIQUE_KEY_FLAG, |fields|) == UniqueColumns(fields)
  {
  }

  lemma ChosenLists(fields: seq<Field>, flag: int)
    ensures Lists(Columns(fields, flag), ChosenSet(fields, flag, |fields|))
    ensures |Columns(fields, flag)| == |ChosenSet(fields, flag, |fields|)|
  {
    ChosenInOrder(fields, flag, |fields|);
    CountsChosen(fields, flag, |fields|);
  }

  /** The columns to go over: those of the primary key if it is complete, otherwise those of the unique key if that one
      is, otherwise all of them. */
  ghost predicate Finding(fields: seq<Field>, table: Table, columns: seq<nat>) {
    if PrimaryComplete(fields, table) then Lists(columns, PrimaryColumns(fields))
    else if UniqueComplete(fields, table) then Lists(columns, UniqueColumns(fields))
    else table.columns == |columns| == |fields| && forall i :: 0 <= i < |columns| ==> columns[i] == i
  }

  lemma BestIsComplete(fields: seq<Field>, table: Table)
    ensures BestFlag(fields, table).None? <==> Hopeless(fields, table)
    ensures BestFlag(fields, table).Some? ==> Finding(fields, table, Columns(fields, BestFlag(fields, table).value))
    ensures BestFlag(fields, table).Some? ==>
              (BestFlag(fields, table).value == 0
               <==> !PrimaryComplete(fields, table) && !UniqueComplete(fields, table))
  {
    hide Columns, ChosenSet, PrimaryColumns, UniqueColumns, Lists;
    KeyColumns(fields);
    ChosenLists(fields, PRI_KEY_FLAG);
    ChosenLists(fields, UNIQUE_KEY_FLAG);
    AllColumns(fields);
  }

  /** What the server said about the table when the way to find a row was decided on: in the first call of the history
      in which it said anything, otherwise in this one. */
  function Decider(calls: seq<Call>, table: Table): Table {
    if Deciding(calls) < |calls| then calls[Deciding(calls)].table else table
  }

  /** The clause of a call over these columns: one condition for each, unless values are wanted and one cannot be read,
      or is null in a key. */
  ghost predicate ClauseOver(fields: seq<Field>, columns: seq<nat>, key: bool, markers: bool, row: Row, r: Result)
    requires |row| == |fields|
  {
    && InRange(fields, columns)
    && r == if markers || forall c :: c in columns ==> !row[c].Unreadable? && (key ==> !row[c].Null?)
            then Built(" WHERE 1" + Conditions(fields, columns, markers, row) + " LIMIT 1") else Failed
  }

  /** A clause is only ever built over all columns of the primary key of the table, or else over all columns of its
      unique key, or else over all columns of the table; the call fails for want of them if and only if the result has
      none of the three. This holds in every call on a new cursor and after every careful history, whose first call that
      learnt something about the table settled the matter. */
  lemma KeyIsComplete(fields: seq<Field>, calls: seq<Call>, memory: nat -> nat, table: Table, markers: bool, row: Row)
    requires Fitting(fields, calls) && Careful(fields, calls) && |row| == |fields|
    ensures var r := Clause(fields, Run(fields, calls, memory), table, markers, row);
            var decider := Decider(calls, table);
            var key := PrimaryComplete(fields, decider) || UniqueComplete(fields, decider);
            if Hopeless(fields, decider) then r == Failed
            else exists columns ::
              Finding(fields, decider, columns) && ClauseOver(fields, columns, key, markers, row, r)
  {
    hide Columns, Run, Conditions, Careful, Walk, Finding, Hopeless, PrimaryComplete, UniqueComplete, BestFlag;
    var decider := Decider(calls, table);
    CarefulClause(fields, calls, memory, table, markers, row);
    FlagDecided(fields, calls, memory, table);
    BestIsComplete(fields, decider);
    if !Hopeless(fields, decider) {
      var flag := BestFlag(fields, decider).value;
      BestFlagIsFlag(fields, decider);
      assert ClauseOver(fields, Columns(fields, flag), flag != 0, markers, row,
                        Clause(fields, Run(fields, calls, memory), table, markers, row));
    }
  }

  lemma FlagDecided(fields: seq<Field>, calls: seq<Call>, memory: nat -> nat, table: Table)
    requires Fitting(fields, calls)
    ensures FlagFor(fields, Run(fields, calls, memory), table) == BestFlag(fields, Decider(calls, table))
  {
    hide Columns, Run, Partly, ListedCount, BestFlag;
    DecidedOnce(fields, calls, memory);
    BestFlagIsFlag(fields, Decider(calls, table));
  }

  /** A table with a primary key of two columns, only one of which the result has: no clause. */
  lemma PartOfAKeyIsNoKey(markers: bool, row: Row)
    requires |row| == 2
    ensures Clause([Field("a", true, false), Field("c", false, false)], NEW, Table(3, 2, 0), markers, row) == Failed
  {
    var fields := [Field("a", true, false), Field("c", false, false)];
    assert PrimaryColumns(fields) == {0} && UniqueColumns(fields) == {};
    BestIsComplete(fields, Table(3, 2, 0));
  }

  // ---------- Markers ----------

  function Marks(s: string): nat { if s == "" then 0 else Marks(s[..|s| - 1]) + if s[|s| - 1] == '?' then 1 else 0 }

  lemma {:induction false} MarksPlus(a: string, b: string)
    ensures Marks(a + b) == Marks(a) + Marks(b)
    decreases |b|
  {
    if b == "" {
      assert a + b == a;
    } else {
      assert (a + b)[..|a + b| - 1] == a + b[..|b| - 1];
      MarksPlus(a, b[..|b| - 1]);
    }
  }

  lemma {:induction false} NoMarks(s: string)
    requires forall i :: 0 <= i < |s| ==> s[i] != '?'
    ensures Marks(s) == 0
    decreases |s|
  {
    if s != "" {
      NoMarks(s[..|s| - 1]);
    }
  }

  /** What stands in front of the marker of a column. */
  function Before(f: Field): string { " AND `" + f.name + "`=" }

  predicate NoMarkInNames(fields: seq<Field>) { forall i :: 0 <= i < |fields| ==> '?' !in fields[i].name }

  lemma ConditionMarks(f: Field, cell: Cell)
    requires '?' !in f.name
    ensures Condition(f, true, cell) == Before(f) + "?" && Marks(Before(f)) == 0 && Marks(Condition(f, true, cell)) == 1
  {
    assert " AND `" + f.name + "`" + "=?" == Before(f) + "?";
    NoMarks(Before(f));
    MarksPlus(Before(f), "?");
    assert "?"[..0] == "";
  }

  /** The conditions have as many markers as columns, and the marker with `k` others before it belongs to column `k`. */
  lemma {:induction false} ConditionsMarks(fields: seq<Field>, columns: seq<nat>, row: Row)
    requires |row| == |fields| && InRange(fields, columns) && NoMarkInNames(fields)
    ensures Marks(Conditions(fields, columns, true, row)) == |columns|
    decreases |columns|
  {
    if columns != [] {
      var k := |columns| - 1;
      ConditionsMarks(fields, columns[..k], row);
      ConditionMarks(fields[columns[k]], row[columns[k]]);
      MarksPlus(Conditions(fields, columns[..k], true, row), Condition(fields[columns[k]], true, row[columns[k]]));
    }
  }

  lemma {:induction false} ConditionsBegin(fields: seq<Field>, columns: seq<nat>, markers: bool, row: Row, k: nat)
    requires |row| == |fields| && InRange(fields, columns) && k < |columns|
    ensures Conditions(fields, columns[..k], markers, row)
            + Condition(fields[columns[k]], markers, row[columns[k]]) <= Conditions(fields, columns, markers, row)
    decreases |columns|
  {
    hide Condition;
    var n := |columns| - 1;
    if k < n {
      ConditionsBegin(fields, columns[..n], markers, row, k);
      assert columns[..n][..k] == columns[..k];
    }
  }

  /** The marker at this place of the clause is the one of this column. */
  predicate MarkerFor(s: string, p: nat, k: nat, f: Field) {
    && p < |s| && s[p] == '?' && Marks(s[..p]) == k
    && p >= |Before(f)| && s[p - |Before(f)|..p] == Before(f)
  }

  /** A clause with markers over columns whose names have none: it has as many markers as columns, and the marker that
      has `k` others before it stands behind the name of the `k`th column. */
  lemma MarkersInOrder(fields: seq<Field>, columns: seq<nat>, row: Row, k: nat)
    requires |row| == |fields| && InRange(fields, columns) && NoMarkInNames(fields)
    ensures var s := " WHERE 1" + Conditions(fields, columns, true, row) + " LIMIT 1";
            && Marks(s) == |columns|
            && (k < |columns| ==> exists p: nat :: MarkerFor(s, p, k, fields[columns[k]]))
  {
    hide Conditions, Condition, Marks, Before;
    var all := Conditions(fields, columns, true, row);
    NoMarks(" WHERE 1");
    NoMarks(" LIMIT 1");
    ConditionsMarks(fields, columns, row);
    MarksPlus(" WHERE 1", all);
    MarksPlus(" WHERE 1" + all, " LIMIT 1");
    if k < |columns| {
      var f := fields[columns[k]];
      var first := Conditions(fields, columns[..k], true, row);
      ConditionsBegin(fields, columns, true, row, k);
      ConditionsMarks(fields, columns[..k], row);
      ConditionMarks(f, row[columns[k]]);
      MarksPlus(" WHERE 1", first);
      MarksPlus(" WHERE 1" + first, Before(f));
      MarkerThere(" WHERE 1", first, Before(f), all, " LIMIT 1");
      assert MarkerFor(" WHERE 1" + all + " LIMIT 1", |" WHERE 1" + first + Before(f)|, k, f);
    }
  }

  lemma MarkerThere(a: string, first: string, before: string, all: string, b: string)
    requires first + (before + "?") <= all
    ensures var s, p := a + all + b, |a + first + before|;
            && p < |s| && s[p] == '?' && s[..p] == a + first + before && s[p - |before|..p] == before
  {
    var s, p := a + all + b, |a + first + before|;
    assert forall i :: 0 <= i < |first + (before + "?")| ==> s[|a| + i] == (first + (before + "?"))[i];
  }

  // ---------- What the conditions say ----------

  /** What is asked of a column, read off the text of one condition. */
  datatype Test = Marker | IsNull | Equals(value: string)

  function NameEnd(s: string, i: nat): (k: nat)
    requires i <= |s|
    ensures i <= k <= |s| && (forall j :: i <= j < k ==> s[j] != '`') && (k < |s| ==> s[k] == '`')
    decreases |s| - i
  {
    if i == |s| || s[i] == '`' then i else NameEnd(s, i + 1)
  }

  /** The name between backticks and what stands behind it, as a server reads them. */
  function Understood(s: string): Option<(string, Test)> {
    if !(" AND `" <= s) || NameEnd(s, 6) == |s| then None
    else
      var name, rest := s[6..NameEnd(s, 6)], s[NameEnd(s, 6) + 1..];
      if rest == "=?" then Some((name, Marker))
      else if rest == " IS NULL" then Some((name, IsNull))
      else if |rest| >= 4 && rest[..3] == "= '" && rest[|rest| - 1] == '\'' then
        Some((name, Equals(rest[3..|rest| - 1])))
      else None
  }

  /** The column of another row passes the test. */
  predicate Passes(test: Test, cell: Cell) {
    match test
    case Marker => true
    case IsNull => cell.Null?
    case Equals(v) => cell == Text(v)
  }

  lemma NameFound(name: string, rest: string)
    requires '`' !in name
    ensures var s := " AND `" + name + "`" + rest;
            NameEnd(s, 6) == 6 + |name| && " AND `" <= s && s[6..6 + |name|] == name && s[7 + |name|..] == rest
  {
    var s := " AND `" + name + "`" + rest;
    assert forall i :: 0 <= i < |name| ==> s[6 + i] == name[i];
    assert s[6 + |name|] == '`';
  }

  /** A condition is understood as a test of the column it was made for: with a marker, as one for a marker; otherwise
      the columns that pass it are exactly those with the value, or the null, of the current row. */
  lemma ConditionUnderstood(f: Field, markers: bool, cell: Cell)
    requires '`' !in f.name && !cell.Unreadable?
    ensures Understood(Condition(f, markers, cell)).Some? && Understood(Condition(f, markers, cell)).value.0 == f.name
    ensures var test := Understood(Condition(f, markers, cell)).value.1;
            if markers then test == Marker
            else forall other: Cell :: Passes(test, other) <==> other == cell
  {
    var rest := if markers then "=?" else if cell.Null? then " IS NULL" else "= '" + cell.value + "'";
    assert Condition(f, markers, cell) == " AND `" + f.name + "`" + rest;
    NameFound(f.name, rest);
    if !markers && cell.Text? {
      assert rest[3..|rest| - 1] == cell.value;
    }
  }

  /** Another row passes all the conditions made for the current one. */
  ghost predicate PassesAll(fields: seq<Field>, columns: seq<nat>, row: Row, other: Row)
    requires |row| == |fields| == |other| && InRange(fields, columns)
  {
    forall i :: 0 <= i < |columns| ==>
      var test := Understood(Condition(fields[columns[i]], false, row[columns[i]]));
      test.Some? && Passes(test.value.1, other[columns[i]])
  }

  /** The rows that pass are exactly those that agree with the current one in the columns gone over. */
  lemma FindsTheRow(fields: seq<Field>, columns: seq<nat>, row: Row, other: Row)
    requires |row| == |fields| == |other| && InRange(fields, columns)
    requires forall i :: 0 <= i < |columns| ==> '`' !in fields[columns[i]].name && !row[columns[i]].Unreadable?
    ensures PassesAll(fields, columns, row, other) <==>
              forall i :: 0 <= i < |columns| ==> other[columns[i]] == row[columns[i]]
  {
    hide Understood, Condition, Passes;
    forall i | 0 <= i < |columns|
      ensures var test := Understood(Condition(fields[columns[i]], false, row[columns[i]]));
              test.Some? && (Passes(test.value.1, other[columns[i]]) <==> other[columns[i]] == row[columns[i]])
    {
      ConditionUnderstood(fields[columns[i]], false, row[columns[i]]);
    }
  }
}
